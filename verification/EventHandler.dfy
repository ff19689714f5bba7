/** CWsEventHandler: the loop that pairs every wait on the thread semaphore with
    one completed source, and puts back the signals it took for an event that
    nobody wanted.

    The operating system is the semaphore, plus completions that a script of
    circumstances brings about whenever the thread waits. Waiting is possible
    only while the semaphore is above zero. */
module EventHandler {
  import opened Kernel
  import opened EventQueue
  import opened EventSources
  import opened Scenes
  import opened WaitRuns
  import opened PauseRuns
  import opened Searches
  import opened Wrappers

  /** How a wait stands after a script has been played. The last is a wait for a
      completed source that the source code takes to return straightaway and
      that does not. */
  datatype WaitOutcome = Returned | StillWaiting | BlockedInCancel

  class SParameters {
    const iEventsRequired: EventsRequired
    const iMaximumNumberOfCompletedEventsToHandle: Option<nat>
    const iSources: TArrayOfAdditionalEventSources
    var iDone: bool
    var iEvent: Event
    var iNumberOfCompletedEventsHandled: int
    var iNumberOfSignalsToReplace: nat
    ghost var endedBy: EndedBy

    constructor (required: EventsRequired, maximum: Option<nat>, sources: TArrayOfAdditionalEventSources, event: Event)
      ensures iEventsRequired == required && iMaximumNumberOfCompletedEventsToHandle == maximum && iSources == sources
      ensures !iDone && iEvent == event && iNumberOfCompletedEventsHandled == 0 && iNumberOfSignalsToReplace == 0
      ensures endedBy == NotEnded
    {
      iEventsRequired, iMaximumNumberOfCompletedEventsToHandle, iSources := required, maximum, sources;
      iDone, iEvent, iNumberOfCompletedEventsHandled, iNumberOfSignalsToReplace := false, event, 0, 0;
      endedBy := NotEnded;
    }

    ghost function Asked(): Terms {
      Terms(iEventsRequired, iMaximumNumberOfCompletedEventsToHandle)
    }

    /** The wait goes on. */
    ghost predicate Open()
      reads this`iDone, this`endedBy
    {
      !iDone && endedBy == NotEnded
    }
  }

  class CWsEventHandler {
    const iThread: Thread
    const iEventQueue: CEventQueue
    const iIOCollection: CIOCollection
    var iStatus: WsStatus
    var iPriorityKeyReady: bool
    var iIsSuspended: bool
    var iStatPtr: Option<int>     // status word of an outstanding KEYA or GETEVENTA
    var iKeysOnly: bool
    // active objects of the thread whose requests have completed
    var iExpiryTimerActive: bool
    var iExpiryTimerReady: bool
    var iForeignReady: seq<TInt>

    // signals raised by the program itself, or by the runtime on its behalf
    ghost var explicit: nat
    // wake-ups for IOWAIT: how many ever arose, and how many waits took one
    ghost var arrived: nat
    ghost var taken: int
    // KEYA and GETEVENTA requests completed so far
    ghost var keyCompletions: nat

    constructor (aThread: Thread, aQueue: CEventQueue, aIOCollection: CIOCollection)
      requires aQueue.iThread == aThread && aQueue.Valid() && aQueue.iQueue == [] && aQueue.leak == 0
      requires aQueue.iNumberOfEventsInBackupRegion == 0 && aIOCollection.iRequestArray == [] && aThread.iSemaphore == 0
      ensures iThread == aThread && iEventQueue == aQueue && iIOCollection == aIOCollection
      ensures Inv() && Balance() == 0 && iStatus == Pending && !iIsSuspended && iStatPtr.None?
      ensures iExpiryTimerActive && !iExpiryTimerReady && iForeignReady == [] && !iPriorityKeyReady
      ensures explicit == 0 && arrived == 0 && taken == 0 && keyCompletions == 0 && !iKeysOnly
    {
      iThread, iEventQueue, iIOCollection := aThread, aQueue, aIOCollection;
      iStatus, iPriorityKeyReady, iIsSuspended, iStatPtr, iKeysOnly := Pending, false, false, None, false;
      iExpiryTimerActive, iExpiryTimerReady, iForeignReady := true, false, [];
      explicit, arrived, taken, keyCompletions := 0, 0, 0, 0;
    }

    /** Everything that is owed a signal on the semaphore. */
    ghost function Outstanding(): int
      reads this, iEventQueue, iIOCollection
    {
      Bit(iStatus.Ready? || iStatus.Cancelled?) + Bit(iPriorityKeyReady) + Completed(iIOCollection.iRequestArray)
      + Bit(iExpiryTimerReady) + |iForeignReady| + explicit + iEventQueue.Owed()
    }

    ghost function Balance(): int
      reads this, iThread, iEventQueue, iIOCollection
    {
      iThread.iSemaphore - Outstanding()
    }

    /** What IOWAIT could be woken by: completed requests not yet removed and
        explicit signals, among them the ones that the expiry timer leaked. */
    ghost function WakeUps(): int
      reads this, iEventQueue, iIOCollection
    {
      Completed(iIOCollection.iRequestArray) + explicit + iEventQueue.leak
    }

    /** No wake-up is ever lost or duplicated. */
    ghost predicate Inv()
      reads this, iEventQueue, iIOCollection
    {
      && iEventQueue.iThread == iThread
      && iEventQueue.Valid()
      && WakeUps() == arrived - taken
    }

    /** What the wait sees is this. */
    ghost predicate Sees(p: SParameters, s: Scene)
      reads this, iEventQueue, iIOCollection, p.iSources
      reads p`iEvent, p`iNumberOfCompletedEventsHandled, p`iNumberOfSignalsToReplace
    {
      && iStatus == s.status && iPriorityKeyReady == s.priorityKey
      && SeesObjects(s.objects) && SeesProgram(s.program) && SeesQueue(s.queue)
      && iIOCollection.iRequestArray == s.requests && p.iSources.iSources == s.sources
      && p.iEvent == s.progress.event && p.iNumberOfCompletedEventsHandled == s.progress.handled
      && p.iNumberOfSignalsToReplace == s.progress.replace
    }

    ghost predicate SeesObjects(o: Objects)
      reads this`iExpiryTimerActive, this`iExpiryTimerReady, this`iForeignReady
    {
      iExpiryTimerActive == o.timerActive && iExpiryTimerReady == o.timer && iForeignReady == o.foreign
    }

    ghost predicate SeesProgram(p: Program)
      reads this`iIsSuspended, this`iStatPtr, this`iKeysOnly, this`explicit
    {
      iIsSuspended == p.suspended && iStatPtr == p.statPtr && iKeysOnly == p.keysOnly && explicit == p.explicit
    }

    ghost function AsProgram(): Program
      reads this`iIsSuspended, this`iStatPtr, this`iKeysOnly, this`explicit
    {
      Program(iIsSuspended, iStatPtr, iKeysOnly, explicit)
    }

    ghost predicate SeesQueue(q: Queue)
      reads iEventQueue`iQueue, iEventQueue`iNumberOfEventsInBackupRegion
      reads iEventQueue`iNumberOfExpiringEvents, iEventQueue`leak
    {
      && iEventQueue.iQueue == q.events && iEventQueue.iNumberOfEventsInBackupRegion == q.backup
      && iEventQueue.iNumberOfExpiringEvents == q.expiring && iEventQueue.leak == q.leak
    }

    /** What a wait that has not begun will see. */
    ghost function Before(sources: seq<Source>, event: Event): Scene
      reads this, iEventQueue, iIOCollection
    {
      Scene(iStatus, iPriorityKeyReady, Objects(iExpiryTimerActive, iExpiryTimerReady, iForeignReady),
            Program(iIsSuspended, iStatPtr, iKeysOnly, explicit),
            Queue(iEventQueue.iQueue, iEventQueue.iNumberOfEventsInBackupRegion, iEventQueue.iNumberOfExpiringEvents,
                  iEventQueue.leak),
            iIOCollection.iRequestArray, sources, Progress(event, 0, 0))
    }

    /** Signals taken from the semaphore and not accounted for yet. */
    ghost function InHand(p: SParameters): int
      reads this, iThread, iEventQueue, iIOCollection, p`iNumberOfSignalsToReplace, p.iSources
    {
      Unconsumed(p.iSources.iSources) - p.iNumberOfSignalsToReplace - Balance()
    }

    /** Seen from outside: signals are in hand when the semaphore is lower than
        it should be. */
    lemma {:induction false} InHandIsTheDifference(p: SParameters, s: Scene)
      requires Sees(p, s)
      ensures InHand(p) == Semaphore(s) - iThread.iSemaphore && Outstanding() == Owing(s)
      ensures p.iNumberOfCompletedEventsHandled == s.progress.handled
    {
      hide Completed, Unconsumed;
    }

    /** The wait stands as the function says. */
    ghost predicate Reached(p: SParameters, r: Step)
      reads this, iEventQueue, iIOCollection, p, p.iSources
    {
      Sees(p, r.scene) && p.endedBy == r.ended && p.iDone == (r.ended != NotEnded && r.ended != PollLimit)
    }

    /** The signals that wake IOWAIT are counted as taken when a wait takes them,
        and a KEYA or GETEVENTA when it completes. */
    twostate predicate Counted(new p: SParameters)
      reads this, p`endedBy
    {
      && taken == old(taken) + Bit(p.endedBy == OplRequest || p.endedBy == ExplicitSignal || p.endedBy == PollLimit)
      && keyCompletions == old(keyCompletions) + Bit(old(iStatPtr).Some? && iStatPtr.None?)
      && (iStatPtr == old(iStatPtr) || iStatPtr.None?)
    }

    // ------------------------------------------------------------ environment

    method CompleteRequest(k: nat)
      requires Inv() && k < |iIOCollection.iRequestArray| && !iIOCollection.iRequestArray[k].completed
      modifies this`arrived, iThread, iIOCollection`iRequestArray
      ensures Inv() && Balance() == old(Balance())
      ensures iThread.iSemaphore == old(iThread.iSemaphore) + 1
      ensures Completed(iIOCollection.iRequestArray) == old(Completed(iIOCollection.iRequestArray)) + 1
      ensures iIOCollection.iRequestArray
           == old(iIOCollection.iRequestArray)[k := old(iIOCollection.iRequestArray[k]).(completed := true)]
    {
      hide CEventQueue.Valid;
      var r := iIOCollection.iRequestArray[k].(completed := true);
      CompletedUpdate(iIOCollection.iRequestArray, k, r);
      iIOCollection.iRequestArray := iIOCollection.iRequestArray[k := r];
      arrived := arrived + 1;
      iThread.Signal(1);
    }

    /** Something completes while the program runs: not for a wait, so it is no
        source of one. */
    method Completes(c: Completion)
      requires Inv()
      modifies this`iStatus, this`iPriorityKeyReady, this`iExpiryTimerReady, this`iForeignReady, this`arrived
      modifies iThread, iIOCollection`iRequestArray
      ensures Inv() && Balance() == old(Balance())
      ensures iThread.iSemaphore >= old(iThread.iSemaphore)
      ensures iStatus == if c.EventArrives? && old(iStatus) == Pending then Ready(c.event) else old(iStatus)
      ensures iPriorityKeyReady == (old(iPriorityKeyReady) || c.PriorityKeyArrives?)
      ensures iExpiryTimerReady == (old(iExpiryTimerReady) || (c.TimerExpires? && iExpiryTimerActive))
      ensures iForeignReady == old(iForeignReady) + if c.ObjectIsReady? then [c.priority] else []
      ensures var rs := old(iIOCollection.iRequestArray);
              WakeUps() == old(WakeUps()) + Bit(c.RequestCompletes? && c.request < |rs| && !rs[c.request].completed)
      ensures |iIOCollection.iRequestArray| == |old(iIOCollection.iRequestArray)|
    {
      hide CEventQueue.Valid;
      match c {
        case RequestCompletes(k) =>
          if k < |iIOCollection.iRequestArray| && !iIOCollection.iRequestArray[k].completed {
            CompleteRequest(k);
          }
        case SourceCompletes(_) =>
        case _ =>
          CompleteSystemRequest(c);
      }
    }

    /** No priority key and no active object that was not ready before. */
    twostate predicate NothingReadier()
      reads this`iPriorityKeyReady, this`iExpiryTimerReady, this`iForeignReady
    {
      && iPriorityKeyReady == old(iPriorityKeyReady) && iExpiryTimerReady == old(iExpiryTimerReady)
      && iForeignReady == old(iForeignReady)
    }

    method Meanwhile(completions: seq<Completion>)
      requires Inv()
      modifies this`iStatus, this`iPriorityKeyReady, this`iExpiryTimerReady, this`iForeignReady, this`arrived
      modifies iThread, iIOCollection`iRequestArray
      ensures Inv() && Balance() == old(Balance())
      ensures iStatus == old(iStatus) || (old(iStatus) == Pending && iStatus.Ready?)
      ensures iStatus == Delivered(old(iStatus), completions)
      ensures completions == [] ==>
        iStatus == old(iStatus) && NothingReadier() && iIOCollection.iRequestArray == old(iIOCollection.iRequestArray)
      ensures |iIOCollection.iRequestArray| == |old(iIOCollection.iRequestArray)|
    {
      hide Inv, Balance;
      for k := 0 to |completions|
        invariant Inv() && Balance() == old(Balance())
        invariant iStatus == old(iStatus) || (old(iStatus) == Pending && iStatus.Ready?)
        invariant Delivered(iStatus, completions[k..]) == Delivered(old(iStatus), completions)
        invariant k == 0 ==>
          iStatus == old(iStatus) && NothingReadier() && iIOCollection.iRequestArray == old(iIOCollection.iRequestArray)
        invariant |iIOCollection.iRequestArray| == |old(iIOCollection.iRequestArray)|
      {
        Completes(completions[k]);
      }
    }

    method CompleteSource(sources: TArrayOfAdditionalEventSources, k: nat)
      requires sources.Valid() && k < |sources.iSources| && !sources.iSources[k].completed
      modifies iThread, sources
      ensures sources.Valid() && Unconsumed(sources.iSources) == old(Unconsumed(sources.iSources)) + 1
      ensures sources.iSources == old(sources.iSources)[k := old(sources.iSources[k]).(completed := true)]
      ensures iThread.iSemaphore == old(iThread.iSemaphore) + 1
    {
      var s := sources.iSources[k].(completed := true);
      UnconsumedUpdate(sources.iSources, k, s);
      sources.iSources := sources.iSources[k := s];
      iThread.Signal(1);
    }

    /** The window server, or an active object of the thread. */
    method CompleteSystemRequest(c: Completion)
      requires Inv() && !c.RequestCompletes? && !c.SourceCompletes?
      modifies this`iStatus, this`iPriorityKeyReady, this`iExpiryTimerReady, this`iForeignReady, iThread
      ensures Inv() && Balance() == old(Balance())
      ensures iThread.iSemaphore >= old(iThread.iSemaphore)
      ensures iStatus == if c.EventArrives? && old(iStatus) == Pending then Ready(c.event) else old(iStatus)
      ensures iPriorityKeyReady == (old(iPriorityKeyReady) || c.PriorityKeyArrives?)
      ensures iExpiryTimerReady == (old(iExpiryTimerReady) || (c.TimerExpires? && iExpiryTimerActive))
      ensures iForeignReady == old(iForeignReady) + if c.ObjectIsReady? then [c.priority] else []
    {
      hide CEventQueue.Valid;
      match c {
        case EventArrives(e) =>
          if iStatus == Pending {
            iStatus := Ready(e);
            iThread.Signal(1);
          }
        case PriorityKeyArrives =>
          if !iPriorityKeyReady {
            iPriorityKeyReady := true;
            iThread.Signal(1);
          }
        case TimerExpires =>
          if iExpiryTimerActive && !iExpiryTimerReady {
            iExpiryTimerReady := true;
            iThread.Signal(1);
          }
        case ObjectIsReady(priority) =>
          iForeignReady := iForeignReady + [priority];
          iThread.Signal(1);
      }
    }

    /** A request that has completed does not complete again, and one that was
        not made does not complete. */
    method Complete(p: SParameters, c: Completion, ghost s: Scene)
      requires Inv() && p.iSources.Valid() && Sees(p, s)
      modifies this`iStatus, this`iPriorityKeyReady, this`iExpiryTimerReady, this`iForeignReady, this`arrived
      modifies iThread, iIOCollection`iRequestArray, p.iSources
      ensures Inv() && p.iSources.Valid() && InHand(p) == old(InHand(p))
      ensures iThread.iSemaphore >= old(iThread.iSemaphore)
      ensures Sees(p, Happened(s, c))
    {
      hide Inv, Outstanding, Completed, Unconsumed, TArrayOfAdditionalEventSources.Valid;
      match c {
        case RequestCompletes(k) =>
          if k < |iIOCollection.iRequestArray| && !iIOCollection.iRequestArray[k].completed {
            CompleteRequest(k);
          }
        case SourceCompletes(k) =>
          if k < |p.iSources.iSources| && !p.iSources.iSources[k].completed {
            CompleteSource(p.iSources, k);
          }
        case _ =>
          CompleteSystemRequest(c);
      }
    }

    /** Any number of sources complete, in any order. */
    method Environment(p: SParameters, completions: seq<Completion>, ghost s: Scene)
      requires Inv() && p.iSources.Valid() && Sees(p, s)
      modifies this`iStatus, this`iPriorityKeyReady, this`iExpiryTimerReady, this`iForeignReady, this`arrived
      modifies iThread, iIOCollection`iRequestArray, p.iSources
      ensures Inv() && p.iSources.Valid() && InHand(p) == old(InHand(p))
      ensures iThread.iSemaphore >= old(iThread.iSemaphore)
      ensures Sees(p, AllHappened(s, completions))
    {
      hide Inv, InHand, Sees, Happened, TArrayOfAdditionalEventSources.Valid;
      for i := 0 to |completions|
        invariant Inv() && p.iSources.Valid() && InHand(p) == old(InHand(p))
        invariant iThread.iSemaphore >= old(iThread.iSemaphore)
        invariant Sees(p, AllHappened(s, completions[..i]))
      {
        assert completions[..i + 1][..i] == completions[..i];
        Complete(p, completions[i], AllHappened(s, completions[..i]));
      }
      assert completions[..|completions|] == completions;
    }

    // ------------------------------------------------------------- event queue

    method AppendEvent(e: Event, outOfMemory: bool) returns (ok: bool)
      requires Inv()
      modifies iThread, iEventQueue`iQueue, iEventQueue`history, iEventQueue`bornAt, iEventQueue`serials
      ensures Inv() && Balance() == old(Balance()) && ok == !outOfMemory
      ensures iThread.iSemaphore >= old(iThread.iSemaphore)
      ensures iEventQueue.iQueue == old(iEventQueue.iQueue) + if ok then [e] else []
    {
      hide CEventQueue.Valid;
      ok := iEventQueue.AppendEvent(e, outOfMemory);
    }

    /** A front-end processor may queue key events of its own. */
    method FepAppends(codes: seq<int>)
      requires Inv()
      modifies iThread, iEventQueue`iQueue, iEventQueue`history, iEventQueue`bornAt, iEventQueue`serials
      ensures Inv() && Balance() == old(Balance())
      ensures iThread.iSemaphore >= old(iThread.iSemaphore)
      ensures iEventQueue.iQueue == old(iEventQueue.iQueue) + KeyEvents(codes)
    {
      hide Inv, Balance;
      for i := 0 to |codes|
        invariant Inv() && Balance() == old(Balance())
        invariant iThread.iSemaphore >= old(iThread.iSemaphore)
        invariant iEventQueue.iQueue == old(iEventQueue.iQueue) + KeyEvents(codes[..i])
      {
        var ok := AppendEvent(Key(codes[i]), false);
        assert KeyEvents(codes[..i + 1]) == KeyEvents(codes[..i]) + [Key(codes[i])];
      }
      assert codes[..|codes|] == codes;
    }

    /** An outstanding KEYA or GETEVENTA stays outstanding or completes: it never
        changes hands, and its status word says pending no longer. */
    twostate predicate KeyStep()
      reads this, iIOCollection
    {
      && iKeysOnly == old(iKeysOnly) && iIOCollection.iPendingWords <= old(iIOCollection.iPendingWords)
      && (iStatPtr == old(iStatPtr) || (iStatPtr.None? && old(iStatPtr).value !in iIOCollection.iPendingWords))
    }

    /** Completes the outstanding KEYA or GETEVENTA with this event, if it is of
        the kind asked for, raising a signal for IOWAIT. */
    method EventCompletesAnyOplAsynchronousWservRequest(e: Event) returns (completes: bool)
      requires Inv()
      modifies this`iStatPtr, this`explicit, this`arrived, this`keyCompletions, iThread, iIOCollection`iPendingWords
      ensures Inv() && Balance() == old(Balance())
      ensures completes
          <==> old(iStatPtr).Some? && (if iKeysOnly then e.Key? else e.Message? ==> e.isCreateOrOpen)
      ensures keyCompletions == old(keyCompletions) + Bit(completes) && explicit == old(explicit) + Bit(completes)
      ensures completes ==> old(iStatPtr).Some? && iStatPtr.None? && old(iStatPtr).value !in iIOCollection.iPendingWords
      ensures !completes ==> iStatPtr == old(iStatPtr)
      ensures KeyStep()
    {
      hide CEventQueue.Valid;
      if iStatPtr.None? {
        return false;
      }
      if !iKeysOnly {
        if e.Message? && !e.isCreateOrOpen {
          return false;
        }
      } else if !e.Key? {
        return false;
      }
      iIOCollection.iPendingWords := iIOCollection.iPendingWords - {iStatPtr.value};
      iStatPtr := None;
      explicit, arrived, keyCompletions := explicit + 1, arrived + 1, keyCompletions + 1;
      iThread.Signal(1);
      return true;
    }

    // ------------------------------------------------------------------ offers

    /** Handles the key, which may suspend or resume the program, and asks for
        the next one. */
    method HandlePriorityKeyCompletion(suspends: bool)
      requires Inv() && iPriorityKeyReady
      modifies this`iPriorityKeyReady, this`iIsSuspended
      ensures Inv() && Balance() == old(Balance()) + 1 && !iPriorityKeyReady && iIsSuspended == suspends
    {
      hide CEventQueue.Valid;
      iPriorityKeyReady := false;
      iIsSuspended := suspends;
    }

    method OfferEventToPriorityKeyHandler(p: SParameters, now: Circumstance, ghost s: Scene) returns (consumed: bool)
      requires Sees(p, s) && Inv() && p.Open() && InHand(p) == 1
      requires p.iEventsRequired.terminatesSuspension ==> iIsSuspended
      modifies this`iPriorityKeyReady, this`iIsSuspended, iThread, iEventQueue`iNumberOfEventsInBackupRegion
      modifies p`iDone, p`iNumberOfSignalsToReplace, p`endedBy
      ensures Inv() && consumed == old(iPriorityKeyReady) && !iPriorityKeyReady && Counted(p)
      ensures InHand(p) == if consumed then 0 else 1
      ensures if consumed then Reached(p, AfterPriorityKey(p.Asked(), s, now)) else p.Open() && Sees(p, s)
    {
      hide Inv, Balance, Completed, Unconsumed;
      if !iPriorityKeyReady {
        return false;
      }
      var wasSuspended := iIsSuspended;
      HandlePriorityKeyCompletion(now.suspends);
      if !iIsSuspended {
        if p.iEventsRequired.terminatesSuspension {
          p.iDone, p.endedBy := true, PriorityKey;
          return true;
        }
        if wasSuspended {
          if p.iSources.AtLeastOneHasCompletedAndBeenConsumed() {
            p.iDone, p.endedBy := true, PriorityKey;
            return true;
          }
          ReplaceSignalsAndRestore(p);
        }
      }
      return true;
    }

    /** The signals of requests that completed while the program was suspended
        are put back, and the events that arrived meanwhile are queued again. */
    method ReplaceSignalsAndRestore(p: SParameters)
      requires Inv()
      modifies iThread, iEventQueue`iNumberOfEventsInBackupRegion, p`iNumberOfSignalsToReplace
      ensures Inv() && InHand(p) == old(InHand(p))
      ensures p.iNumberOfSignalsToReplace == 0 && iEventQueue.BackupIsEmpty()
    {
      hide CEventQueue.Valid;
      iThread.Signal(p.iNumberOfSignalsToReplace);
      p.iNumberOfSignalsToReplace := 0;
      iEventQueue.RestoreAllEventsFromBackup();
    }

    /** Runs one active object that is ready and has at least the given
        priority. The expiry timer is one of them, and it must not find queued
        events outside the backup region. */
    method OfferEventToActiveScheduler(p: SParameters, aMinimumPriority: TInt, now: Circumstance, ghost s: Scene)
      returns (consumed: bool)
      requires Sees(p, s) && Inv() && InHand(p) == 1
      requires aMinimumPriority <= EActivePriorityDefault ==> !iEventQueue.IsNotEmpty()
      modifies this`iExpiryTimerReady, this`iForeignReady, this`arrived, iThread
      modifies iEventQueue`iQueue, iEventQueue`iNumberOfExpiringEvents, iEventQueue`history, iEventQueue`bornAt
      modifies iEventQueue`serials, iEventQueue`ticks, iEventQueue`leak
      ensures Inv() && InHand(p) == if consumed then 0 else 1
      ensures consumed == Due(s, aMinimumPriority)
      ensures Sees(p, if consumed then AfterObject(s, aMinimumPriority, now) else s)
      ensures iEventQueue.ticks == old(iEventQueue.ticks) + Bit(old(iExpiryTimerReady) && !iExpiryTimerReady)
    {
      hide Inv, InHand;
      if !TimerIsDue(iExpiryTimerReady, aMinimumPriority) && FirstDue(iForeignReady, aMinimumPriority).None? {
        return false;
      }
      var k := ObjectToRun(iForeignReady, iExpiryTimerReady, aMinimumPriority, now.runs);
      if k.None? {
        RunExpiryTimer(p, s.queue);
      } else {
        RunForeignObject(p, k.value, now.fepAppends);
      }
      return true;
    }

    /** Another active object of the thread: a front-end processor's may queue
        events. */
    method RunForeignObject(p: SParameters, k: nat, fepAppends: seq<int>)
      requires Inv() && InHand(p) == 1 && k < |iForeignReady|
      modifies this`iForeignReady, iThread
      modifies iEventQueue`iQueue, iEventQueue`history, iEventQueue`bornAt, iEventQueue`serials
      ensures Inv() && InHand(p) == 0
      ensures iForeignReady == Remove(old(iForeignReady), k)
      ensures iEventQueue.iQueue == old(iEventQueue.iQueue) + KeyEvents(fepAppends)
    {
      hide CEventQueue.Valid;
      iForeignReady := Remove(iForeignReady, k);
      FepAppends(fepAppends);
    }

    /** One tick; what it throws out of the backup region will be signalled
        once too often, which is a wake-up nobody asked for. */
    method RunExpiryTimer(p: SParameters, ghost q: Queue)
      requires SeesQueue(q) && Inv() && InHand(p) == 1 && iExpiryTimerReady && !iEventQueue.IsNotEmpty()
      modifies this`iExpiryTimerReady, this`arrived, iThread, iEventQueue`iQueue, iEventQueue`iNumberOfExpiringEvents
      modifies iEventQueue`serials, iEventQueue`ticks, iEventQueue`leak
      ensures Inv() && InHand(p) == 0 && iEventQueue.ticks == old(iEventQueue.ticks) + 1 && !iExpiryTimerReady
      ensures q.expiring <= |q.events| && SeesQueue(OneTick(q))
    {
      assert iEventQueue.iNumberOfExpiringEvents <= |iEventQueue.iQueue|;
      hide CEventQueue.Valid;
      ghost var before := iEventQueue.leak;
      iExpiryTimerReady := false;
      iEventQueue.RunL();
      arrived := arrived + (iEventQueue.leak - before);
    }

    method ConsumeNextEvent()
      requires Inv() && iEventQueue.IsNotEmpty()
      modifies iEventQueue`iQueue, iEventQueue`iNumberOfExpiringEvents, iEventQueue`serials
      ensures Inv() && Balance() == old(Balance()) + 1
      ensures iEventQueue.iQueue == Remove(old(iEventQueue.iQueue), iEventQueue.iNumberOfEventsInBackupRegion)
      ensures iEventQueue.iNumberOfExpiringEvents == old(iEventQueue.iNumberOfExpiringEvents)
                - Bit(iEventQueue.iNumberOfEventsInBackupRegion < old(iEventQueue.iNumberOfExpiringEvents))
    {
      hide CEventQueue.Valid;
      iEventQueue.ConsumeNextEvent();
    }

    method PutNextEventInBackup()
      requires Inv() && iEventQueue.IsNotEmpty()
      modifies iEventQueue`iNumberOfEventsInBackupRegion
      ensures Inv() && Balance() == old(Balance()) + 1
      ensures iEventQueue.iNumberOfEventsInBackupRegion == old(iEventQueue.iNumberOfEventsInBackupRegion) + 1
    {
      hide CEventQueue.Valid;
      iEventQueue.PutNextEventInBackup();
    }

    /** The queue is not empty. */
    method OfferQueuedEvent(p: SParameters, ghost s: Scene)
      requires Sees(p, s) && Inv() && p.Open() && InHand(p) == 1 && iEventQueue.IsNotEmpty()
      modifies this`iStatPtr, this`explicit, this`arrived, this`keyCompletions, iThread, iIOCollection`iPendingWords
      modifies iEventQueue`iQueue, iEventQueue`iNumberOfExpiringEvents, iEventQueue`serials
      modifies iEventQueue`iNumberOfEventsInBackupRegion
      modifies p`iDone, p`iEvent, p`iNumberOfCompletedEventsHandled, p`endedBy
      ensures Inv() && InHand(p) == 0 && Counted(p) && KeyStep()
      ensures Reached(p, AfterQueued(p.Asked(), s))
    {
      hide Inv, Balance, Matches, CompletesKeyRequest, Completed, Unconsumed;
      if !iIsSuspended {
        var wanted := TakeQueuedEventIfWanted(p, s.program);
        if wanted {
          return;
        }
      }
      PutNextEventInBackup();
      p.iNumberOfCompletedEventsHandled := p.iNumberOfCompletedEventsHandled - 1;
    }

    method TakeQueuedEventIfWanted(p: SParameters, ghost s: Program) returns (wanted: bool)
      requires SeesProgram(s) && Inv() && p.Open() && iEventQueue.IsNotEmpty()
      modifies this`iStatPtr, this`explicit, this`arrived, this`keyCompletions, iThread, iIOCollection`iPendingWords
      modifies iEventQueue`iQueue, iEventQueue`iNumberOfExpiringEvents, iEventQueue`serials
      modifies p`iDone, p`iEvent, p`endedBy
      ensures Inv() && Balance() == old(Balance()) + Bit(wanted) && Counted(p) && KeyStep()
      ensures p.iEvent == old(iEventQueue.iQueue[iEventQueue.iNumberOfEventsInBackupRegion])
      ensures p.iDone == (p.endedBy != NotEnded)
      ensures var matches := Matches(p.iEventsRequired.user, p.iEvent);
              var completes := !matches && CompletesKeyRequest(s, p.iEvent);
              && wanted == (matches || completes)
              && p.endedBy == (if matches then UserEvent
                               else if completes && p.iEventsRequired.oplCompletion then KeyRequest else NotEnded)
              && SeesProgram(if completes then KeyRequestCompleted(s) else s)
      ensures iEventQueue.iQueue == if wanted then Remove(old(iEventQueue.iQueue), iEventQueue.iNumberOfEventsInBackupRegion)
                                    else old(iEventQueue.iQueue)
      ensures iEventQueue.iNumberOfExpiringEvents == old(iEventQueue.iNumberOfExpiringEvents)
                - Bit(wanted && iEventQueue.iNumberOfEventsInBackupRegion < old(iEventQueue.iNumberOfExpiringEvents))
    {
      hide Inv, Balance, Matches, CompletesKeyRequest, KeyRequestCompleted, SeesProgram;
      p.iEvent := iEventQueue.PeekNextEvent();
      wanted := EventIsWanted(p, s);
      if wanted {
        ConsumeNextEvent();
      }
    }

    /** By the wait itself, or by an outstanding KEYA or GETEVENTA. */
    method EventIsWanted(p: SParameters, ghost s: Program) returns (wanted: bool)
      requires SeesProgram(s) && Inv() && p.Open()
      modifies this`iStatPtr, this`explicit, this`arrived, this`keyCompletions, iThread, iIOCollection`iPendingWords
      modifies p`iDone, p`endedBy
      ensures Inv() && Balance() == old(Balance()) && Counted(p) && KeyStep() && p.iDone == (p.endedBy != NotEnded)
      ensures var matches := Matches(p.iEventsRequired.user, p.iEvent);
              var completes := !matches && CompletesKeyRequest(s, p.iEvent);
              && wanted == (matches || completes)
              && p.endedBy == (if matches then UserEvent
                               else if completes && p.iEventsRequired.oplCompletion then KeyRequest else NotEnded)
              && SeesProgram(if completes then KeyRequestCompleted(s) else s)
    {
      hide Inv, Balance;
      if Matches(p.iEventsRequired.user, p.iEvent) {
        p.iDone, p.endedBy := true, UserEvent;
        return true;
      }
      wanted := EventCompletesAnyOplAsynchronousWservRequest(p.iEvent);
      if wanted && p.iEventsRequired.oplCompletion {
        p.iDone, p.endedBy := true, KeyRequest;
      }
    }

    /** The window server has an event for the program. */
    method OfferWindowServerEvent(p: SParameters, now: Circumstance, ghost s: Scene)
      requires Sees(p, s) && Inv() && p.Open() && InHand(p) == 1 && (iStatus.Ready? || iStatus.Cancelled?)
      modifies this`iStatus, this`iStatPtr, this`explicit, this`arrived, this`keyCompletions, iThread
      modifies iIOCollection`iPendingWords
      modifies iEventQueue`iQueue, iEventQueue`history, iEventQueue`bornAt, iEventQueue`serials
      modifies p`iDone, p`iEvent, p`endedBy
      ensures Inv() && InHand(p) == 0 && Counted(p) && KeyStep()
      ensures Reached(p, AfterFresh(p.Asked(), s, now))
    {
      hide Inv, Balance, KeyRequestCompleted, CompletesKeyRequest, Matches, SeesObjects, Completed, Unconsumed;
      RequestNextEvent(p);
      HandleFreshEvent(p, now, s.program);
    }

    /** The front-end processor may queue events and may take this one. */
    method HandleFreshEvent(p: SParameters, now: Circumstance, ghost s: Program)
      requires SeesProgram(s) && Inv() && p.Open()
      modifies this`iStatPtr, this`explicit, this`arrived, this`keyCompletions, iThread
      modifies iIOCollection`iPendingWords
      modifies iEventQueue`iQueue, iEventQueue`history, iEventQueue`bornAt, iEventQueue`serials
      modifies p`iDone, p`endedBy
      ensures Inv() && Balance() == old(Balance()) && Counted(p) && KeyStep() && p.iDone == (p.endedBy != NotEnded)
      ensures var offered := !now.fepConsumes && !s.suspended;
              var matches := offered && Matches(p.iEventsRequired.user, p.iEvent);
              var completes := offered && !matches && CompletesKeyRequest(s, p.iEvent);
              var queued := !now.fepConsumes && !matches && !completes && !now.outOfMemory;
              && p.endedBy == (if matches then UserEvent
                               else if completes && p.iEventsRequired.oplCompletion then KeyRequest else NotEnded)
              && SeesProgram(if completes then KeyRequestCompleted(s) else s)
              && iEventQueue.iQueue
                   == old(iEventQueue.iQueue) + KeyEvents(now.fepAppends) + if queued then [p.iEvent] else []
    {
      hide Inv, Balance, KeyRequestCompleted, CompletesKeyRequest, Matches, SeesProgram;
      assert s.suspended == iIsSuspended by { SuspendedIsSeen(s); }
      FepAppends(now.fepAppends);
      if now.fepConsumes {
        return;
      }
      if !iIsSuspended {
        var wanted := EventIsWanted(p, s);
        if wanted {
          return;
        }
      }
      var ok := AppendEvent(p.iEvent, now.outOfMemory);
    }

    method RequestNextEvent(p: SParameters)
      requires Inv() && (iStatus.Ready? || iStatus.Cancelled?)
      modifies this`iStatus, p`iEvent
      ensures Inv() && Balance() == old(Balance()) + 1 && iStatus == Pending
      ensures p.iEvent == if old(iStatus).Ready? then old(iStatus).event else old(p.iEvent)
    {
      hide CEventQueue.Valid;
      if iStatus.Ready? {
        p.iEvent := iStatus.event;
      }
      iStatus := Pending;
    }

    lemma {:induction false} SuspendedIsSeen(s: Program)
      requires SeesProgram(s)
      ensures s.suspended == iIsSuspended
    {
    }

    method OfferEventToUserEventHandler(p: SParameters, now: Circumstance, ghost s: Scene) returns (consumed: bool)
      requires Sees(p, s) && Inv() && p.Open() && InHand(p) == 1
      modifies this`iStatus, this`iStatPtr, this`explicit, this`arrived, this`keyCompletions, iThread
      modifies iIOCollection`iPendingWords
      modifies iEventQueue`iQueue, iEventQueue`history, iEventQueue`bornAt, iEventQueue`serials
      modifies iEventQueue`iNumberOfExpiringEvents, iEventQueue`iNumberOfEventsInBackupRegion
      modifies p`iDone, p`iEvent, p`iNumberOfCompletedEventsHandled, p`endedBy
      ensures Inv() && InHand(p) == (if consumed then 0 else 1) && Counted(p) && KeyStep()
      ensures consumed == !UserIsIdle(s)
      ensures if consumed then Reached(p, AfterUser(p.Asked(), s, now)) else p.Open() && Sees(p, s)
    {
      hide Inv, InHand, Reached, AfterQueued, AfterFresh;
      if iEventQueue.IsNotEmpty() {
        OfferQueuedEvent(p, s);
        return true;
      }
      if iStatus.Ready? || iStatus.Cancelled? {
        OfferWindowServerEvent(p, now, s);
        return true;
      }
      return false;
    }

    method OfferEventToArrayOfAdditionalEventSources(p: SParameters, best: nat, ghost s: Scene)
      requires Sees(p, s) && Inv() && p.Open() && InHand(p) == 1 && p.iSources.Valid()
      requires BestSource(p.iSources.iSources) == Some(best)
      modifies p`iDone, p`endedBy, p.iSources
      ensures Inv() && p.iSources.Valid() && InHand(p) == 0 && Counted(p)
      ensures Reached(p, AfterSource(s))
    {
      hide CEventQueue.Valid, BestRequest, BestSource, Completed, Unconsumed, Remove, SeesObjects, SeesQueue;
      p.iSources.MarkAsConsumed(best);
      if !iIsSuspended {
        p.iDone, p.endedBy := true, AdditionalSource;
      }
    }

    /** IOWAIT takes the request; every other wait leaves it where it is and
        remembers to put its signal back. */
    method OfferEventToOplAsynchronousRequest(p: SParameters, best: nat, ghost s: Scene)
      requires Sees(p, s) && Inv() && p.Open() && InHand(p) == 1 && BestRequest(iIOCollection.iRequestArray) == Some(best)
      modifies this`taken, iIOCollection`iRequestArray, p`iDone, p`endedBy, p`iNumberOfSignalsToReplace
      ensures Inv() && InHand(p) == 0 && Counted(p)
      ensures Reached(p, AfterRequest(p.Asked(), s))
    {
      hide CEventQueue.Valid, BestRequest, BestSource, Completed, Unconsumed, Remove, SeesObjects, SeesQueue;
      if iIsSuspended || !p.iEventsRequired.oplCompletion {
        p.iNumberOfSignalsToReplace := p.iNumberOfSignalsToReplace + 1;
      } else {
        iIOCollection.RemoveCompletedOplAsynchronousRequest(best);
        taken := taken + 1;
        p.iDone, p.endedBy := true, OplRequest;
      }
    }

    /** One signal that belongs to no source is used up. */
    ghost method TakeExplicitSignal(p: SParameters, s: Scene)
      requires Sees(p, s) && Inv() && (explicit > 0 || (iEventQueue.leak > 0 && iEventQueue.Owed() > 0))
      modifies this`explicit, this`taken, iEventQueue`leak
      ensures Inv() && Balance() == old(Balance()) + 1 && taken == old(taken) + 1
      ensures Sees(p, ExplicitTaken(s))
    {
      if explicit > 0 {
        explicit := explicit - 1;
      } else {
        iEventQueue.leak := iEventQueue.leak - 1;
      }
      taken := taken + 1;
    }

    /** Reached only when no source at all is ready: the signal in hand can only
        be one that the program raised itself, the dummy signal of a poll, or
        one that the expiry timer leaked. */
    method FinalOfferEventFunction(p: SParameters, ghost s: Scene)
      requires Sees(p, s) && Inv() && p.Open() && InHand(p) == 1 && UserIsIdle(s)
      requires !iPriorityKeyReady && !iExpiryTimerReady && iForeignReady == []
      requires BestRequest(s.requests).None? && BestSource(s.sources).None?
      modifies this`explicit, this`taken, iEventQueue`leak, p`iDone, p`endedBy, p`iNumberOfSignalsToReplace
      ensures Inv() && InHand(p) == 0 && Counted(p)
      ensures old(explicit) + old(iEventQueue.leak) > old(p.iNumberOfSignalsToReplace)
      ensures Reached(p, AfterFinal(p.Asked(), s))
    {
      hide Inv, Balance, SeesObjects, SeesQueue, Completed, Unconsumed, BestRequest, BestSource, UserIsIdle, ExplicitTaken;
      NobodyIsReady(p, s);
      if p.iMaximumNumberOfCompletedEventsToHandle.Some? {
        TakeExplicitSignal(p, s);
        p.iDone, p.endedBy := true, ExplicitSignal;
      } else if iIsSuspended || !p.iEventsRequired.oplCompletion {
        p.iNumberOfSignalsToReplace := p.iNumberOfSignalsToReplace + 1;
      } else {
        TakeExplicitSignal(p, s);
        p.iDone, p.endedBy := true, ExplicitSignal;
      }
    }

    lemma {:induction false} NobodyIsReady(p: SParameters, s: Scene)
      requires Sees(p, s) && Inv() && InHand(p) == 1 && UserIsIdle(s)
      requires !iPriorityKeyReady && !iExpiryTimerReady && iForeignReady == []
      requires BestRequest(s.requests).None? && BestSource(s.sources).None?
      ensures explicit + iEventQueue.leak > p.iNumberOfSignalsToReplace
      ensures explicit == 0 ==> iEventQueue.leak > 0 && iEventQueue.Owed() > 0
    {
      BestRequestIsFirstOfHighest(s.requests);
      BestSourceIsLastOfHighest(s.sources);
      hide CEventQueue.Valid, Completed, Unconsumed, BestRequest, BestSource;
    }

    /** The handler's own offer, when no active object is more important. */
    method OfferToHandler(p: SParameters, h: Handler, source: Option<nat>, request: Option<nat>, now: Circumstance,
                          ghost s: Scene)
      returns (consumed: bool)
      requires Sees(p, s) && Inv() && p.iSources.Valid() && p.Open() && InHand(p) == 1 && !iPriorityKeyReady
      requires source == BestSource(s.sources) && request == BestRequest(s.requests)
      requires CanOffer(s, h.offer) && !Due(s, h.priority)
      requires h.offer == Final ==>
        h.priority == KMinTInt && UserIsIdle(s) && source.None? && request.None?
      modifies this`iStatus, this`iStatPtr, this`explicit, this`arrived, this`taken, this`keyCompletions
      modifies iThread, iIOCollection, iEventQueue, p, p.iSources
      ensures Inv() && p.iSources.Valid() && Counted(p)
      ensures InHand(p) == if consumed then 0 else 1
      ensures consumed == !PassesOn(s, h)
      ensures if consumed then Reached(p, AfterHandler(p.Asked(), s, h.offer, now)) else p.Open() && Sees(p, s)
    {
      hide Inv, InHand, Reached, TArrayOfAdditionalEventSources.Valid, Due;
      match h.offer {
        case ToUserEventHandler =>
          consumed := OfferEventToUserEventHandler(p, now, s);
        case ToAdditionalSources =>
          OfferEventToArrayOfAdditionalEventSources(p, source.value, s);
          consumed := true;
        case ToOplRequest =>
          OfferEventToOplAsynchronousRequest(p, request.value, s);
          consumed := true;
        case Final =>
          NothingDue(s);
          FinalOfferEventFunction(p, s);
          consumed := true;
      }
    }

    /** One step of the dispatch: the active objects at least as important as
        the handler, then the handler. */
    method OfferTo(p: SParameters, h: Handler, source: Option<nat>, request: Option<nat>, now: Circumstance, ghost s: Scene)
      returns (consumed: bool)
      requires Sees(p, s) && Inv() && p.iSources.Valid() && p.Open() && InHand(p) == 1 && !iPriorityKeyReady
      requires source == BestSource(s.sources) && request == BestRequest(s.requests)
      requires CanOffer(s, h.offer)
      requires h.priority <= EActivePriorityDefault ==> UserIsIdle(s)
      requires h.offer == Final ==> h.priority == KMinTInt && source.None? && request.None?
      modifies this`iStatus, this`iStatPtr, this`explicit, this`arrived, this`taken, this`keyCompletions
      modifies this`iExpiryTimerReady, this`iForeignReady
      modifies iThread, iIOCollection, iEventQueue, p, p.iSources
      ensures Inv() && p.iSources.Valid() && Counted(p)
      ensures InHand(p) == if consumed then 0 else 1
      ensures consumed == !PassesOn(s, h)
      ensures if consumed then Reached(p, AfterOffer(p.Asked(), s, h, now)) else p.Open() && Sees(p, s)
    {
      hide Inv, InHand, TArrayOfAdditionalEventSources.Valid, Due, AfterObject, AfterHandler;
      consumed := OfferEventToActiveScheduler(p, h.priority, now, s);
      if consumed {
        return;
      }
      consumed := OfferToHandler(p, h, source, request, now, s);
    }

    /** Offers one signal down the handlers in order of priority. It is always
        taken, by the second handler at the latest. */
    method Dispatch(p: SParameters, source: Option<nat>, request: Option<nat>, now: Circumstance, ghost s: Scene)
      requires Sees(p, s) && Inv() && p.iSources.Valid() && p.Open() && InHand(p) == 1 && !iPriorityKeyReady
      requires source == BestSource(s.sources) && request == BestRequest(s.requests)
      modifies this`iStatus, this`iStatPtr, this`explicit, this`arrived, this`taken, this`keyCompletions
      modifies this`iExpiryTimerReady, this`iForeignReady
      modifies iThread, iIOCollection, iEventQueue, p, p.iSources
      ensures Inv() && p.iSources.Valid() && InHand(p) == 0 && Counted(p)
      ensures Reached(p, AfterDispatch(p.Asked(), s, now))
    {
      var sourcePriority := if source.Some? then Some(p.iSources.iSources[source.value].priority) else None;
      var requestPriority := if request.Some? then Some(iIOCollection.iRequestArray[request.value].priority) else None;
      var handlers := SetUpArrayOfEventHandlers(sourcePriority, requestPriority);
      assert handlers == HandlersOf(s);
      HandlersCanOffer(s);
      hide Inv, InHand, Sees, Reached, UserIsIdle, Due, AfterOffer, TArrayOfAdditionalEventSources.Valid;
      hide HandlersOf, SetUpArrayOfEventHandlers, CanOffer, BestSource, BestRequest;
      var i := 0;
      var consumed := false;
      while !consumed
        invariant 0 <= i <= 2 && (i == 2 ==> consumed)
        invariant Inv() && p.iSources.Valid() && InHand(p) == (if consumed then 0 else 1) && Counted(p)
        invariant !consumed ==> p.Open() && !iPriorityKeyReady && Sees(p, s) && (i == 1 ==> PassesOn(s, handlers[0]))
        invariant consumed ==>
          Reached(p, AfterOffer(p.Asked(), s, if PassesOn(s, handlers[0]) then handlers[1] else handlers[0], now))
        decreases 2 - i
      {
        consumed := OfferTo(p, handlers[i], source, request, now, s);
        i := i + 1;
      }
    }

    // -------------------------------------------------------------------- wait

    method HandleCompletedRequests() returns (best: Option<nat>)
      requires Inv()
      modifies iIOCollection
      ensures Inv() && Balance() == old(Balance()) && iIOCollection.iPendingWords <= old(iIOCollection.iPendingWords)
      ensures iIOCollection.iRequestArray == Noted(old(iIOCollection.iRequestArray))
      ensures best == BestRequest(iIOCollection.iRequestArray)
    {
      hide CEventQueue.Valid;
      best := iIOCollection.HandleAnyCompletedOplAsynchronousRequests();
    }

    /** One turn of the loop: the signal just taken finds the source it stands
        for. */
    method Round(p: SParameters, now: Circumstance, ghost s: Scene)
      requires Sees(p, s) && Inv() && p.iSources.Valid() && p.Open() && InHand(p) == 1
      requires p.iEventsRequired.terminatesSuspension ==> s.program.suspended
      modifies this, iThread, iIOCollection, iEventQueue, p, p.iSources
      ensures Inv() && p.iSources.Valid() && InHand(p) == 0 && Counted(p)
      ensures Reached(p, AfterRound(p.Asked(), s, now))
    {
      hide Inv, InHand, Sees, Reached, AfterPriorityKey, AfterDispatch, TArrayOfAdditionalEventSources.Valid;
      hide CompletionsNoted, OneMoreHandled, BestSource, BestRequest;
      var source := p.iSources.CompletedAdditionalEventSourceWithHighestPriority();
      var request := NoteCompletedRequests(p, s);
      ghost var s1 := CompletionsNoted(s);
      var consumed := OfferEventToPriorityKeyHandler(p, now, s1);
      if !consumed {
        Dispatch(p, source, request, now, s1);
      }
      CountHandled(p, if consumed then AfterPriorityKey(p.Asked(), s1, now) else AfterDispatch(p.Asked(), s1, now));
    }

    method NoteCompletedRequests(p: SParameters, ghost s: Scene) returns (best: Option<nat>)
      requires Sees(p, s) && Inv()
      modifies iIOCollection
      ensures Inv() && Sees(p, CompletionsNoted(s)) && InHand(p) == old(InHand(p))
      ensures best == BestRequest(CompletionsNoted(s).requests)
      ensures iIsSuspended == s.program.suspended && iPriorityKeyReady == s.priorityKey && p.iSources.iSources == s.sources
      ensures CompletionsNoted(s).sources == s.sources
    {
      hide Inv, Outstanding, SeesObjects, SeesQueue;
      best := HandleCompletedRequests();
    }

    method CountHandled(p: SParameters, ghost r: Step)
      requires Reached(p, r)
      modifies p`iNumberOfCompletedEventsHandled
      ensures Reached(p, OneMoreHandled(r))
      ensures p.iNumberOfCompletedEventsHandled == old(p.iNumberOfCompletedEventsHandled) + 1
    {
      p.iNumberOfCompletedEventsHandled := p.iNumberOfCompletedEventsHandled + 1;
    }

    /** Between waits every signal is accounted for and no event is set aside. */
    ghost predicate Settled()
      reads this, iThread, iEventQueue, iIOCollection
    {
      Inv() && Balance() == 0 && iEventQueue.BackupIsEmpty()
    }

    method PurgeAllNonKeyEvents()
      requires Inv() && Balance() >= 0 && iEventQueue.BackupIsEmpty()
      modifies iThread, iEventQueue`iQueue, iEventQueue`iNumberOfExpiringEvents, iEventQueue`serials
      ensures Inv() && Balance() == old(Balance()) && iEventQueue.BackupIsEmpty()
      ensures iEventQueue.iQueue == KeysOf(old(iEventQueue.iQueue))
      ensures old(iEventQueue.iNumberOfExpiringEvents) <= |old(iEventQueue.iQueue)|
      ensures iEventQueue.iNumberOfExpiringEvents
           == |KeysOf(old(iEventQueue.iQueue)[..old(iEventQueue.iNumberOfExpiringEvents)])|
      ensures forall i :: 0 <= i < |iEventQueue.iQueue| ==> iEventQueue.iQueue[i].Key?
    {
      hide CEventQueue.Valid;
      KeysOfIsKeys(iEventQueue.iQueue);
      iEventQueue.PurgeAllNonKeyEvents();
    }

    /** The dummy signal that lets a poll return without waiting. */
    method SignalDummy()
      requires Inv()
      modifies this`explicit, this`arrived, iThread
      ensures Inv() && Balance() == old(Balance()) && explicit == old(explicit) + 1 && arrived == old(arrived) + 1
    {
      hide CEventQueue.Valid;
      iThread.Signal(1);
      explicit, arrived := explicit + 1, arrived + 1;
    }

    /** A poll has handled as many events as it may: it takes the dummy signal
        back. */
    method EndPoll(p: SParameters, ghost s: Scene)
      requires Sees(p, s) && Inv() && p.Open() && InHand(p) == 0 && s.program.explicit > 0 && iThread.iSemaphore > 0
      modifies this`explicit, this`taken, iThread, iEventQueue`leak, p`endedBy
      ensures Inv() && InHand(p) == 0 && Counted(p)
      ensures Reached(p, Step(ExplicitTaken(s), PollLimit))
    {
      hide Inv, Balance, SeesObjects, SeesQueue, ExplicitTaken, Completed, Unconsumed;
      assert explicit == s.program.explicit;
      Wait(p);
      TakeExplicitSignal(p, s);
      p.endedBy := PollLimit;
    }

    /** What is true before and after each turn of the loop. */
    ghost predicate Waiting(p: SParameters, s: Scene)
      reads this, iThread, iEventQueue, iIOCollection, p, p.iSources
    {
      Sees(p, s) && Inv() && p.iSources.Valid() && InHand(p) == 0 && p.Open() && Waits(p.Asked(), s)
    }

    /** One circumstance: whatever happens meanwhile, the thread runs on only if
        the semaphore lets it. */
    method Pass(p: SParameters, now: Circumstance, ghost s: Scene) returns (limitReached: bool)
      requires Waiting(p, s)
      modifies this, iThread, iIOCollection, iEventQueue, p, p.iSources
      ensures limitReached == (p.endedBy == PollLimit)
      ensures Inv() && p.iSources.Valid() && InHand(p) == 0 && Counted(p)
      ensures var r := AfterPass(p.Asked(), s, now);
              Reached(p, r) && (r.ended == NotEnded ==> Waiting(p, r.scene))
    {
      hide Inv, InHand, Sees, Balance, TArrayOfAdditionalEventSources.Valid, Waits, Semaphore;
      hide AllHappened, AfterRound, ExplicitTaken, EndsProperly;
      PassIsSafe(p.Asked(), s, now);
      ghost var s1 := AllHappened(s, now.completions);
      limitReached := false;
      Environment(p, now.completions, s);
      InHandIsTheDifference(p, s1);
      if iThread.iSemaphore > 0 {
        var maximum := p.iMaximumNumberOfCompletedEventsToHandle;
        limitReached := maximum.Some? && p.iNumberOfCompletedEventsHandled >= maximum.value;
        if limitReached {
          EndPoll(p, s1);
        } else {
          Wait(p);
          Round(p, now, s1);
        }
      }
    }

    method Wait(p: SParameters)
      requires iThread.iSemaphore > 0 && InHand(p) == 0
      modifies iThread
      ensures InHand(p) == 1
    {
      iThread.WaitForAnyRequest();
    }

    /** The loop, until the wait is over or the script is. */
    method Play(p: SParameters, script: seq<Circumstance>, ghost s: Scene) returns (ended: bool)
      requires Waiting(p, s)
      modifies this, iThread, iIOCollection, iEventQueue, p, p.iSources
      ensures Inv() && p.iSources.Valid() && InHand(p) == 0 && Counted(p)
      ensures var r := AfterScript(p.Asked(), s, script);
              && Reached(p, r) && ended == (r.ended != NotEnded)
              && (!ended ==> Waiting(p, r.scene))
    {
      hide Inv, InHand, Sees, AfterPass, AfterScript, Waits, TArrayOfAdditionalEventSources.Valid, Waiting, BlockedWithReason;
      WaitingIsOpen(p, s);
      ghost var t, s1 := p.Asked(), s;
      NothingPlayed(t, s, script);
      var i := 0;
      ended := false;
      while !ended && i < |script|
        invariant 0 <= i <= |script| && p.Asked() == t
        invariant Inv() && p.iSources.Valid() && InHand(p) == 0 && Counted(p)
        invariant !ended ==>
          Waiting(p, s1) && Reached(p, Step(s1, NotEnded)) && AfterScript(t, s, script) == AfterScript(t, s1, script[i..])
        invariant ended ==> Reached(p, AfterScript(t, s, script)) && AfterScript(t, s, script).ended != NotEnded
      {
        OneStep(t, s1, script[i..]);
        DropOneMore(script, i);
        var limitReached := Pass(p, script[i], s1);
        s1 := AfterPass(t, s1, script[i]).scene;
        ended := p.iDone || limitReached;
        i := i + 1;
      }
      NothingPlayed(t, s1, []);
    }

    lemma {:induction false} NothingPlayed(t: Terms, s: Scene, script: seq<Circumstance>)
      ensures AfterScript(t, s, []) == Step(s, NotEnded) && script[0..] == script
    {
    }

    lemma {:induction false} WaitingIsOpen(p: SParameters, s: Scene)
      requires Waiting(p, s)
      ensures Reached(p, Step(s, NotEnded)) && Inv() && p.iSources.Valid() && InHand(p) == 0
    {
    }

    /** After the loop: cancel the sources nobody needs, put back the signals
        that were passed over, restore the queue. The wait for a source that
        has completed blocks exactly when more signals were passed over than
        there are things that signals are owed for. */
    method Finish(p: SParameters) returns (blocked: bool)
      requires Inv() && p.iSources.Valid() && InHand(p) == 0
      modifies iThread, iEventQueue, p.iSources
      ensures Inv() && iEventQueue.leak == old(iEventQueue.leak)
      ensures blocked <==> p.iNumberOfSignalsToReplace > old(Outstanding())
      ensures blocked ==>
        iThread.iSemaphore == 0 && Unconsumed(p.iSources.iSources) > 0 && old(p.iSources.iSources) != []
      ensures !blocked ==> Settled() && Unconsumed(p.iSources.iSources) == 0
      ensures !blocked ==>
        iEventQueue.iQueue == if p.iEventsRequired.user == UserEventsKeysOnly then KeysOf(old(iEventQueue.iQueue))
                              else old(iEventQueue.iQueue)
    {
      NothingOwedIsNegative();
      hide CEventQueue.Valid, TArrayOfAdditionalEventSources.Valid;
      blocked := p.iSources.CancelAll(iThread);
      if !blocked {
        iThread.Signal(p.iNumberOfSignalsToReplace);
        iEventQueue.RestoreAllEventsFromBackup();
        if p.iEventsRequired.user == UserEventsKeysOnly {
          PurgeAllNonKeyEvents();
        }
      }
    }

    /** Before the loop. */
    method Begin(p: SParameters, ghost s: Scene)
      requires Sees(p, s) && Inv() && iEventQueue.BackupIsEmpty() && p.iSources.Valid() && p.Open() && InHand(p) == 0
      requires p.iNumberOfCompletedEventsHandled == 0 && p.iNumberOfSignalsToReplace == 0
      requires Supported(p.Asked(), s) && (p.iEventsRequired.terminatesSuspension ==> iIsSuspended)
      modifies this`explicit, this`arrived, iThread, iEventQueue
      ensures Waiting(p, Opened(p.Asked(), s))
    {
      NothingOwedIsNegative();
      OpenedWaits(p.Asked(), s);
      hide Inv, Waits, TArrayOfAdditionalEventSources.Valid, SeesObjects, Outstanding, Completed, Unconsumed;
      if p.iEventsRequired.user == UserEventsKeysOnly {
        PurgeAllNonKeyEvents();
      }
      if p.iMaximumNumberOfCompletedEventsToHandle.Some? {
        SignalDummy();
      }
    }

    /** Waits until something that was asked for has happened, while the script is
        played. How it ends is a function of what the wait sees and of the script;
        whatever the script, nothing that was not asked for can end it. */
    method WaitForEvent(required: EventsRequired, sources: TArrayOfAdditionalEventSources, maximum: Option<nat>,
                        event: Event, script: seq<Circumstance>)
      returns (outcome: WaitOutcome, p: SParameters)
      requires Inv() && iEventQueue.BackupIsEmpty() && sources.Valid()
      requires Balance() == Unconsumed(sources.iSources)
      requires Supported(Terms(required, maximum), Before(sources.iSources, event))
      requires required.terminatesSuspension ==> iIsSuspended
      modifies this, iThread, iIOCollection, iEventQueue, sources
      ensures fresh(p) && p.Asked() == Terms(required, maximum) && p.iSources == sources && Inv()
      ensures var t := Terms(required, maximum);
              var s := old(Before(sources.iSources, event));
              var r := AfterScript(t, Opened(t, s), script);
              EndsProperly(t, s, r) && KeysStay(t, s, r) && Ended(p, r, outcome)
      ensures outcome == BlockedInCancel ==> old(sources.iSources) != []
      ensures outcome == Returned && required.user == UserEventsKeysOnly ==> OnlyKeys(iEventQueue.iQueue)
      ensures Counted(p)
    {
      hide Inv, InHand, Balance, Outstanding, Waits, Sees, Supported, Completed, Unconsumed;
      hide TArrayOfAdditionalEventSources.Valid, AfterScript, Opened, KeysStay, Ended, Before;
      ghost var t, s := Terms(required, maximum), Before(sources.iSources, event);
      assert s.sources == sources.iSources by { BeforeHas(sources.iSources, event); }
      p := new SParameters(required, maximum, sources, event);
      BeforeIsSeen(p);
      Begin(p, s);
      WaitEndsProperly(t, s, script);
      var ended := Play(p, script, Opened(t, s));
      outcome := End(p, ended, AfterScript(t, Opened(t, s), script));
    }

    /** What is known when WaitForEvent returns, or as long as it does not. */
    ghost predicate Ended(p: SParameters, r: Step, outcome: WaitOutcome)
      reads this, iThread, iEventQueue, iIOCollection, p, p.iSources
    {
      && p.endedBy == r.ended && p.iEvent == r.scene.progress.event && p.iNumberOfSignalsToReplace == r.scene.progress.replace
      && iStatPtr == r.scene.program.statPtr
      && iIsSuspended == r.scene.program.suspended && Left(r.scene)
      && outcome == (if r.ended == NotEnded then StillWaiting
                     else if r.scene.progress.replace > Owing(r.scene) then BlockedInCancel else Returned)
      && Owing(r.scene) >= 0
      && match outcome
         case StillWaiting =>
           && Waiting(p, r.scene) && iThread.iSemaphore == Semaphore(r.scene)
           && BlockedWithReason(p, r.scene)
         case BlockedInCancel => iThread.iSemaphore == 0 && Unconsumed(p.iSources.iSources) > 0
         case Returned =>
           && Settled() && Unconsumed(p.iSources.iSources) == 0 && iEventQueue.leak == r.scene.queue.leak
           && iEventQueue.iQueue == (if p.iEventsRequired.user == UserEventsKeysOnly then KeysOf(r.scene.queue.events)
                                     else r.scene.queue.events)
    }

    /** A thread that is blocked has nothing to do, unless a completed request of
        the program or a leaked signal is in the way; and a poll blocks only for
        such a request. */
    ghost predicate BlockedWithReason(p: SParameters, s: Scene)
      reads iThread
    {
      iThread.iSemaphore == 0 && Completed(s.requests) == 0 && (s.queue.leak == 0 || p.Asked().maximum.Some?) ==>
        p.Asked().maximum.None? && NothingIsReady(s)
    }

    lemma {:induction false} WaitingIsBlockedWithReason(p: SParameters, s: Scene)
      requires Waiting(p, s)
      ensures BlockedWithReason(p, s)
    {
      InHandIsTheDifference(p, s);
      assert s.queue.backup <= |s.queue.events| + s.queue.leak;
      hide Waits, Completed, Unconsumed, Semaphore, Owing;
      if Semaphore(s) == 0 && Completed(s.requests) == 0 && (s.queue.leak == 0 || p.Asked().maximum.Some?) {
        BlockedForGoodReason(p.Asked(), s);
      }
    }

    method End(p: SParameters, ended: bool, ghost r: Step) returns (outcome: WaitOutcome)
      requires Reached(p, r) && Inv() && p.iSources.Valid() && InHand(p) == 0 && ended == (r.ended != NotEnded)
      requires !ended ==> Waiting(p, r.scene)
      modifies iThread, iEventQueue, p.iSources
      ensures Inv() && Ended(p, r, outcome) && (outcome == BlockedInCancel ==> r.scene.sources != [])
      ensures outcome == Returned && p.iEventsRequired.user == UserEventsKeysOnly ==> OnlyKeys(iEventQueue.iQueue)
    {
      KeysOfIsKeys(r.scene.queue.events);
      hide Inv, InHand, Balance, Outstanding, Waits, Sees, Owing, Semaphore, Completed, Unconsumed, BlockedWithReason;
      hide TArrayOfAdditionalEventSources.Valid;
      InHandIsTheDifference(p, r.scene);
      IsLeft(p, r.scene);
      NothingOwedIsNegative();
      if !ended {
        WaitingIsBlockedWithReason(p, r.scene);
        return StillWaiting;
      }
      var blocked := Finish(p);
      return if blocked then BlockedInCancel else Returned;
    }

    lemma {:induction false} BeforeHas(sources: seq<Source>, event: Event)
      ensures Before(sources, event).sources == sources
    {
    }

    lemma {:induction false} BeforeIsSeen(p: SParameters)
      requires p.iNumberOfCompletedEventsHandled == 0 && p.iNumberOfSignalsToReplace == 0
      ensures Sees(p, Before(p.iSources.iSources, p.iEvent))
      ensures InHand(p) == Unconsumed(p.iSources.iSources) - Balance()
    {
    }

    lemma {:induction false} IsLeft(p: SParameters, s: Scene)
      requires Sees(p, s)
      ensures Left(s) && iEventQueue.iQueue == s.queue.events && iEventQueue.leak == s.queue.leak
      ensures p.iSources.iSources == s.sources && p.iEvent == s.progress.event && iStatPtr == s.program.statPtr
      ensures p.iNumberOfSignalsToReplace == s.progress.replace && iIsSuspended == s.program.suspended
    {
    }

    /** The program goes on with what the wait left. */
    ghost predicate Left(s: Scene)
      reads this, iIOCollection
    {
      && iStatus == s.status && iPriorityKeyReady == s.priorityKey
      && SeesObjects(s.objects) && SeesProgram(s.program) && iIOCollection.iRequestArray == s.requests
    }

    // ----------------------------------------------------- keywords that wait

    /** Nothing is ready but requests of the program and signals of nobody's. */
    ghost predicate IsIdle()
      reads this, iEventQueue, iIOCollection
    {
      Idle(Before([], Other(0)))
    }

    /** IOWAIT takes exactly one wake-up, a completed request or an explicit
        signal, when no KEYA or GETEVENTA is outstanding. One that completes
        meanwhile ends the wait and leaves its own signal, so that none is
        taken. */
    method WaitForAnyOplAsynchronousRequestCompletion(script: seq<Circumstance>) returns (returned: bool)
      requires Settled()
      modifies this, iThread, iIOCollection, iEventQueue
      ensures Inv()
      ensures returned ==> Settled() && !iIsSuspended
      ensures returned && old(iStatPtr).None? ==>
        taken == old(taken) + 1 && iStatPtr.None? && keyCompletions == old(keyCompletions)
      ensures returned ==> taken == old(taken) + 1 - Bit(old(iStatPtr).Some? && iStatPtr.None?)
      ensures !returned ==> taken == old(taken)
      ensures keyCompletions == old(keyCompletions) + Bit(old(iStatPtr).Some? && iStatPtr.None?)
      ensures iStatPtr == old(iStatPtr) || iStatPtr.None?
      ensures old(IsIdle() && !iIsSuspended) && Quiet(script) && script != [] ==> (returned <==> old(WakeUps()) > 0)
      ensures old(IsIdle() && !iIsSuspended && iStatus == Pending && WakeUps() == 0 && iStatPtr.Some?) && KeyArrives(script) ==>
        returned && taken == old(taken) && iStatPtr.None? && explicit == 1
    {
      hide Inv;
      var none := new TArrayOfAdditionalEventSources([]);
      var event: Event := *;
      var required := EventsRequired(UserEventsNone, false, true);
      assert none.iSources == [];
      IowaitWhenIdle(event, script);
      var outcome, p := WaitForEvent(required, none, None, event, script);
      returned := outcome == Returned;
    }

    lemma {:induction false} IowaitWhenIdle(event: Event, script: seq<Circumstance>)
      ensures var s := Before([], event);
              var r := AfterScript(Iowait, Opened(Iowait, s), script);
              && (IsIdle() && !iIsSuspended && Quiet(script) && script != [] ==> (r.ended != NotEnded <==> WakeUps() > 0))
              && (IsIdle() && !iIsSuspended && iStatus == Pending && WakeUps() == 0 && iStatPtr.Some? && KeyArrives(script) ==>
                    r.ended == KeyRequest && r.scene.program.statPtr.None? && r.scene.program.explicit == 1)
    {
      hide AfterScript, Completed;
      var s := Before([], event);
      if IsIdle() && !iIsSuspended {
        if Quiet(script) && script != [] {
          IdleIowaitEnds(s, script);
        }
        if iStatus == Pending && WakeUps() == 0 && iStatPtr.Some? && KeyArrives(script) {
          KeyEndsIowait(s, script);
        }
      }
    }

    /** IOWAITSTAT returns with its status word no longer pending, having taken
        exactly one wake-up on balance, however many others it absorbed. */
    method WaitForOplAsynchronousRequestCompletion(word: int, scripts: seq<seq<Circumstance>>) returns (returned: bool)
      requires Settled()
      modifies this, iThread, iIOCollection, iEventQueue
      ensures Inv()
      ensures returned ==> Settled() && word !in iIOCollection.iPendingWords
      ensures returned && old(iStatPtr).None? ==>
        taken == old(taken) + 1 && iStatPtr.None? && keyCompletions == old(keyCompletions)
      ensures returned ==> taken == old(taken) + 1 - Bit(old(iStatPtr).Some? && iStatPtr.None?)
    {
      hide Inv, Settled;
      var numberOfSignalsToReplace := 0;
      for i := 0 to |scripts|
        invariant Settled()
        invariant iStatPtr == old(iStatPtr) || iStatPtr.None?
        invariant taken == old(taken) + numberOfSignalsToReplace - Bit(old(iStatPtr).Some? && iStatPtr.None?)
        invariant keyCompletions == old(keyCompletions) + Bit(old(iStatPtr).Some? && iStatPtr.None?)
      {
        SettledHolds();
        returned := WaitForAnyOplAsynchronousRequestCompletion(scripts[i]);
        if !returned {
          return;
        }
        if word !in iIOCollection.iPendingWords {
          ReplaceSignals(numberOfSignalsToReplace);
          return true;
        }
        numberOfSignalsToReplace := numberOfSignalsToReplace + 1;
      }
      SettledHolds();
      return false;
    }

    lemma {:induction false} SettledHolds()
      ensures Settled() ==> Inv() && Balance() == 0 && iEventQueue.BackupIsEmpty()
    {
    }

    /** The wake-ups absorbed for other status words are raised again. */
    method ReplaceSignals(n: nat)
      requires Settled()
      modifies this`explicit, this`taken, iThread
      ensures Settled() && taken == old(taken) - n && explicit == old(explicit) + n
      ensures Inv()
    {
      hide CEventQueue.Valid;
      iThread.Signal(n);
      explicit, taken := explicit + n, taken - n;
    }

    /** The check between opcodes. Its thread blocks only for a completed request
        that IOWAIT has not collected; and when nothing else is ready and nothing
        happens, it blocks exactly when there are, beside at least one such
        request, fewer signals than it may handle. */
    method HandleAnyCompletedEvents(maximum: nat, script: seq<Circumstance>) returns (outcome: WaitOutcome)
      requires Settled()
      modifies this, iThread, iIOCollection, iEventQueue
      ensures Inv()
      ensures outcome == Returned ==> Settled()
      ensures outcome != BlockedInCancel
      ensures outcome == StillWaiting && iThread.iSemaphore == 0 ==> Completed(iIOCollection.iRequestArray) > 0
      ensures old(IsIdle()) && Quiet(script) && |script| > maximum ==>
        && (outcome != Returned <==>
              0 < old(Completed(iIOCollection.iRequestArray)) && old(WakeUps()) < maximum)
        && (outcome != Returned ==> iThread.iSemaphore == 0)
    {
      hide Inv;
      var none := new TArrayOfAdditionalEventSources([]);
      var event: Event := *;
      var required := EventsRequired(UserEventsNone, false, false);
      ghost var t, s := Terms(required, Some(maximum)), Before([], event);
      assert none.iSources == [];
      if IsIdle() && Quiet(script) && |script| > maximum {
        IdlePollEndsExactly(t, s, script);
      }
      var p;
      outcome, p := WaitForEvent(required, none, Some(maximum), event, script);
    }

    /** GET. It never returns, whatever is pressed, once a request of the program
        with a priority above that of window server events has completed; and
        when a key is there and nothing else happens, it returns exactly if
        there is no such request. */
    method DoGetUnmapped(script: seq<Circumstance>) returns (outcome: WaitOutcome, key: Event)
      requires Settled()
      modifies this, iThread, iIOCollection, iEventQueue
      ensures Inv() && outcome != BlockedInCancel
      ensures outcome == Returned ==> Settled() && !iIsSuspended && key.Key? && OnlyKeys(iEventQueue.iQueue)
      ensures old(OutranksKeys(iIOCollection.iRequestArray)) ==> outcome == StillWaiting
      ensures old(KeyIsReady(Before([], Other(0)))) && Quiet(script) && script != [] && !script[0].fepConsumes ==>
        && (outcome == Returned <==> !old(OutranksKeys(iIOCollection.iRequestArray)))
        && (outcome != Returned ==> iStatus == old(iStatus))
    {
      hide Inv;
      var none := new TArrayOfAdditionalEventSources([]);
      var event: Event := *;
      ghost var s := Before([], event);
      assert none.iSources == [] && KeyIsReady(s) == KeyIsReady(Before([], Other(0)));
      hide AfterScript, Opened, Waiting, OutranksKeys, KeyIsReady, Quiet;
      GetEnds(s, script);
      var required := EventsRequired(UserEventsKeysOnly, false, false);
      var p;
      outcome, p := WaitForEvent(required, none, None, event, script);
      key := p.iEvent;
    }

    lemma {:induction false} WaitGave(p: SParameters, s: Scene, r: Step, outcome: WaitOutcome)
      requires Ended(p, r, outcome) && EndsProperly(p.Asked(), s, r) && p.Asked().maximum.None?
      ensures outcome == StillWaiting <==> r.ended == NotEnded
      ensures r.ended != NotEnded && r.scene.progress.replace == 0 ==> outcome == Returned
      ensures outcome == Returned ==> Settled() && !iIsSuspended && p.iEvent == r.scene.progress.event
      ensures outcome == Returned ==>
        iEventQueue.iQueue == if p.iEventsRequired.user == UserEventsKeysOnly then KeysOf(r.scene.queue.events)
                              else r.scene.queue.events
    {
      hide Settled, KeysOf, BlockedWithReason, Semaphore, Owing, Left, Waiting, Unconsumed, Credit, Supported, Waits, Completed;
    }

    /** PAUSE waits for a timer, for keys too if the delay is negative, and for keys
        alone if it is zero, and puts the event that the wait remembers into the
        queue. */
    method Pause(aDelay: int, outOfMemory: bool, script: seq<Circumstance>) returns (outcome: WaitOutcome, ok: bool)
      requires Settled()
      modifies this, iThread, iIOCollection, iEventQueue
      ensures Inv() && (!ok ==> outcome == Returned && outOfMemory)
      ensures outcome == Returned ==> Settled() && !iIsSuspended
      ensures var s := old(BeforePause(aDelay));
              var r := AfterPause(aDelay, s, script);
              && (outcome == StillWaiting <==> r.ended == NotEnded)
              && (r.ended != NotEnded && r.scene.progress.replace == 0 ==> outcome == Returned)
              && (outcome == Returned ==> iEventQueue.iQueue == QueueAfterPause(aDelay, r, ok))
    {
      hide Inv, Settled, AfterPause, BeforePause, KeysOf;
      SettledHolds();
      var event;
      outcome, event := WaitForPause(aDelay, script);
      SettledHolds();
      ok := true;
      if outcome == Returned && event != KDummyEvent {
        ok := AppendInPause(event, outOfMemory);
        SettledHolds();
      }
    }

    method AppendInPause(event: Event, outOfMemory: bool) returns (ok: bool)
      requires Settled()
      modifies iThread, iEventQueue`iQueue, iEventQueue`history, iEventQueue`bornAt, iEventQueue`serials
      ensures Settled() && ok == !outOfMemory && iEventQueue.iQueue == old(iEventQueue.iQueue) + if ok then [event] else []
    {
      hide Inv;
      ok := AppendEvent(event, outOfMemory);
    }

    /** The wait of PAUSE, and the event that it remembers. */
    method WaitForPause(aDelay: int, script: seq<Circumstance>) returns (outcome: WaitOutcome, event: Event)
      requires Settled()
      modifies this, iThread, iIOCollection, iEventQueue
      ensures Inv() && (outcome == Returned ==> Settled() && !iIsSuspended)
      ensures var r := AfterPause(aDelay, old(BeforePause(aDelay)), script);
              && (outcome == StillWaiting <==> r.ended == NotEnded)
              && (r.ended != NotEnded && r.scene.progress.replace == 0 ==> outcome == Returned)
              && (outcome == Returned ==>
                    event == r.scene.progress.event && iEventQueue.iQueue == QueueAfterPause(aDelay, r, false))
    {
      hide Inv;
      var timer := new TArrayOfAdditionalEventSources(if aDelay == 0 then [] else [EActivePriorityWsEvents - 1]);
      var required := EventsRequired(if aDelay > 0 then UserEventsNone else UserEventsKeysOnly, false, false);
      assert timer.iSources == PauseSources(aDelay) && PauseTerms(aDelay) == Terms(required, None);
      UnconsumedNone(timer.iSources);
      ghost var s := BeforePause(aDelay);
      hide AfterScript, Opened, Ended, EndsProperly, KeysStay, OnlyKeys, KeysOf;
      var p;
      outcome, p := WaitForEvent(required, timer, None, KDummyEvent, script);
      event := p.iEvent;
      WaitGave(p, s, AfterPause(aDelay, s, script), outcome);
    }

    /** A completed request of at least the timer's priority keeps the timer from
        ending the wait. A key that ends it is still there, but behind the others;
        and after a positive delay, which looks at events and takes none, the last
        event of the queue is there twice. */
    method DoPauseL(aDelay: int, outOfMemory: bool, script: seq<Circumstance>) returns (outcome: WaitOutcome, ok: bool)
      requires Settled()
      modifies this, iThread, iIOCollection, iEventQueue
      ensures Inv() && (!ok ==> outcome == Returned && outOfMemory)
      ensures outcome == Returned ==> Settled() && !iIsSuspended
      ensures old(StarvesPause(aDelay, iIOCollection.iRequestArray)) ==> outcome == StillWaiting
      ensures aDelay != 0 && old(IsIdle() && !iIsSuspended) && TimeIsUp(script) ==>
        (outcome == Returned <==> !old(OutranksTimer(iIOCollection.iRequestArray)))
      ensures aDelay > 0 && old(PausesPlainly(BeforePause(aDelay))) && Plain(script) && outcome == Returned && ok ==>
        LastIsTwice(old(iEventQueue.iQueue), iEventQueue.iQueue)
      ensures aDelay > 0 && old(PausesQuietly(BeforePause(aDelay))) && Plain(script)
              && LooksThenTimeIsUp(script, |old(iEventQueue.iQueue)|) ==>
        outcome == Returned && (ok ==> iEventQueue.iQueue == WithLastAgain(old(iEventQueue.iQueue)))
      ensures aDelay <= 0 && old(KeyIsQueued(BeforePause(aDelay))) && Quiet(script) && script != [] ==>
        outcome == Returned && (ok ==> iEventQueue.iQueue == FirstLast(KeysOf(old(iEventQueue.iQueue))))
    {
      hide Inv;
      ghost var s := BeforePause(aDelay);
      assert s.requests == iIOCollection.iRequestArray && s.queue.events == iEventQueue.iQueue;
      hide AfterPause, StarvesPause, Pausing, PausesPlainly, PausesQuietly, KeyIsQueued, Plain, OutranksTimer, KeysOf;
      hide BeforePause, QueueAfterPause, LastIsTwice, WithLastAgain, LooksThenTimeIsUp, TimeIsUp;
      PauseEnds(aDelay, s, script);
      outcome, ok := Pause(aDelay, outOfMemory, script);
    }

    ghost function BeforePause(aDelay: int): Scene
      reads this, iEventQueue, iIOCollection
    {
      Before(PauseSources(aDelay), KDummyEvent)
    }

    /** Returns only once a priority key has resumed the program. */
    method WaitWhileSuspended(script: seq<Circumstance>) returns (returned: bool)
      requires Settled() && iIsSuspended
      modifies this, iThread, iIOCollection, iEventQueue
      ensures Inv()
      ensures returned ==> Settled() && !iIsSuspended
    {
      hide Inv;
      var none := new TArrayOfAdditionalEventSources([]);
      var event: Event := *;
      var outcome, p := WaitForEvent(EventsRequired(UserEventsNone, true, false), none, None, event, script);
      returned := outcome == Returned;
    }

    method IoSignal()
      requires Settled()
      modifies this`explicit, this`arrived, iThread
      ensures Settled() && explicit == old(explicit) + 1 && arrived == old(arrived) + 1
    {
      SignalDummy();
    }

    // ------------------------------------------------------- checks that don't

    lemma {:induction false} NothingOwedIsNegative()
      requires Inv()
      ensures Outstanding() >= Bit(iStatus.Ready? || iStatus.Cancelled?) && Outstanding() >= 0
    {
    }

    /** The wait that consumes the signal of an event just dealt with. */
    method TakeBack()
      requires Inv() && Balance() == 1
      modifies iThread
      ensures Inv() && Balance() == 0
    {
      NothingOwedIsNegative();
      hide CEventQueue.Valid;
      iThread.WaitForAnyRequest();
    }

    /** Looks through what is queued, setting aside what does not match: an event
        of the kind of an outstanding KEYA or GETEVENTA completes that, and the
        first other one of the kind asked for is found. None of its waits blocks. */
    method SearchQueue(wanted: bool, user: UserEvents) returns (found: bool, event: Event)
      requires Settled()
      modifies this`iStatPtr, this`explicit, this`arrived, this`keyCompletions, iThread, iIOCollection`iPendingWords
      modifies iEventQueue`iQueue, iEventQueue`iNumberOfExpiringEvents, iEventQueue`serials
      modifies iEventQueue`iNumberOfEventsInBackupRegion
      ensures Settled() && KeyStep()
      ensures |iEventQueue.iQueue| == |old(iEventQueue.iQueue)| - (keyCompletions - old(keyCompletions)) - Bit(found && wanted)
      ensures found ==> Matches(user, event)
      ensures found && !wanted ==> event in iEventQueue.iQueue
      ensures !found ==> NoneMatches(iEventQueue.iQueue, user)
      ensures Looked(old(AsProgram()), old(iEventQueue.iQueue), wanted, user, found, event, iEventQueue.iQueue, AsProgram())
      ensures !found ==> NoneCompletes(AsProgram(), iEventQueue.iQueue)
    {
      hide Inv, Balance, NoneMatchesBefore, NoneMatches, Looked, Searching;
      ghost var p0, q0 := AsProgram(), iEventQueue.iQueue;
      event := *;
      SearchBegins(p0, q0, user);
      while iEventQueue.IsNotEmpty()
        invariant |iEventQueue.iQueue| == |old(iEventQueue.iQueue)| - (keyCompletions - old(keyCompletions))
        invariant Inv() && Balance() == 0 && KeyStep()
        invariant Searching(p0, q0, user, iEventQueue.iNumberOfEventsInBackupRegion, iEventQueue.iQueue, AsProgram())
        decreases |iEventQueue.iQueue| - iEventQueue.iNumberOfEventsInBackupRegion
      {
        ghost var q, n, p := iEventQueue.iQueue, iEventQueue.iNumberOfEventsInBackupRegion, AsProgram();
        event := iEventQueue.PeekNextEvent();
        var completes := EventCompletesAnyOplAsynchronousWservRequest(event);
        if completes {
          SearchCompletes(p0, q0, user, n, q, p);
          ConsumeNextEvent();
          TakeBack();
        } else if Matches(user, event) {
          SearchFinds(p0, q0, wanted, user, n, q, p);
          if wanted {
            ConsumeNextEvent();
            TakeBack();
          }
          RestoreAllEventsFromBackup();
          return true, event;
        } else {
          SearchPasses(p0, q0, user, n, q, p);
          PutNextEventInBackup();
          TakeBack();
        }
      }
      SearchEnds(p0, q0, wanted, user, iEventQueue.iNumberOfEventsInBackupRegion, iEventQueue.iQueue, AsProgram(), event);
      RestoreAllEventsFromBackup();
      return false, event;
    }

    method RestoreAllEventsFromBackup()
      requires Inv() && Balance() == 0
      modifies iThread, iEventQueue`iNumberOfEventsInBackupRegion
      ensures Settled()
    {
      hide CEventQueue.Valid;
      iEventQueue.RestoreAllEventsFromBackup();
    }

    /** The window server's event has arrived: takes its signal and asks for the
        next one. */
    method TakeWindowServerEvent() returns (event: Event)
      requires Inv() && Balance() == 0 && iStatus.Ready?
      modifies this`iStatus, iThread
      ensures Inv() && Balance() == 0 && iStatus == Pending && event == old(iStatus).event
    {
      NothingOwedIsNegative();
      hide CEventQueue.Valid;
      iThread.WaitForAnyRequest();
      event := iStatus.event;
      iStatus := Pending;
    }

    /** KEY, TESTEVENT and the like. The environment acts in every turn; however
        it does, no wait blocks and every signal is accounted for. It gives up
        after ten turns, or when there is no memory, and then an event may still
        be there; otherwise "no" means that there is none. As long as no text
        comes from a front-end processor, the answer and the queue are those of a
        search of all the events there are, queued and taken meanwhile. */
    method IsEventReady(wanted: bool, user: UserEvents, script: seq<Circumstance>)
      returns (ready: bool, event: Event, gaveUp: bool, ghost taken: seq<Event>)
      requires Settled() && (iStatus == Pending || iStatus.Ready?)
      modifies this`iStatus, this`iStatPtr, this`explicit, this`arrived, this`keyCompletions, iThread, iIOCollection
      modifies this`iPriorityKeyReady, this`iExpiryTimerReady, this`iForeignReady
      modifies iEventQueue`iQueue, iEventQueue`iNumberOfExpiringEvents, iEventQueue`iNumberOfEventsInBackupRegion
      modifies iEventQueue`history, iEventQueue`bornAt, iEventQueue`serials
      ensures Settled() && KeyStep() && (iStatus == Pending || iStatus.Ready?)
      ensures script == [] ==> NothingReadier() && iIOCollection.iRequestArray == Noted(old(iIOCollection.iRequestArray))
      ensures ready ==> Matches(user, event)
      ensures !ready && !gaveUp ==> iStatus == Pending && NoneMatches(iEventQueue.iQueue, user)
      ensures ready && !wanted ==> event in iEventQueue.iQueue
      ensures script == [] && old(iStatus) == Pending ==> !gaveUp && iStatus == Pending
      ensures Answered(old(AsProgram()), Offered(old(iEventQueue.iQueue), wanted, user), old(iStatus), script, wanted, user,
                       taken, ready, event, gaveUp, iEventQueue.iQueue, AsProgram())
      ensures old(iStatus).Ready? && !TurnAt(script, 0).fepConsumes && taken == [] ==> ready && iStatus == old(iStatus)
      ensures old(iStatus).Ready? && !TurnAt(script, 0).fepConsumes && NoText(script) && taken != [] ==>
        var e := old(iStatus).event;
        && (e in iEventQueue.iQueue || (ready && wanted && event == e) || CompletesKeyRequest(old(AsProgram()), e))
        && (old(iStatPtr).None? && NoneMatches(Offered(old(iEventQueue.iQueue), wanted, user), user) && Matches(user, e) ==>
              ready && event == e)
    {
      SettledHolds();
      hide Inv, Balance, NoneMatches, Looked, Matches, Turned, Answered, TurnAt, KeysOf, Offered;
      event, taken := *, [];
      ghost var p0, status0 := AsProgram(), iStatus;
      PurgeForSearch(wanted, user);
      ghost var q0 := iEventQueue.iQueue;
      SettledHolds();
      var request := HandleCompletedRequests();
      NoTurnYet(p0, q0, status0, script, wanted, user, event);
      for i := 0 to 10
        invariant Settled() && (iStatus == Pending || iStatus.Ready?) && KeyStep()
        invariant script == [] ==> NothingReadier() && iIOCollection.iRequestArray == Noted(old(iIOCollection.iRequestArray))
        invariant script == [] && status0 == Pending ==> i == 0 && iStatus == Pending
        invariant if i == 0 then taken == [] && iStatus == status0
                  else status0.Ready? && !TurnAt(script, 0).fepConsumes ==> taken != []
        invariant Turned(p0, q0, status0, script, wanted, user, i, taken, event, iEventQueue.iQueue, AsProgram(), iStatus)
      {
        ghost var q1, p1, e1, status1 := iEventQueue.iQueue, AsProgram(), event, iStatus;
        var answered;
        ghost var more;
        QuietTurn(script, i);
        answered, ready, event, gaveUp, more := IsEventReadyNow(wanted, user, TurnAt(script, i));
        Turn(p0, q0, status0, script, wanted, user, i, taken, e1, q1, p1, status1, more, answered, ready, event, gaveUp,
             iEventQueue.iQueue, AsProgram(), iStatus);
        if status0.Ready? && !TurnAt(script, 0).fepConsumes && (i > 0 || !ready || iStatus != status1 || more != []) {
          FirstTurnTakes(status0, status1, script, i, taken, more);
        }
        taken := taken + more;
        if answered {
          ReadyEvent(p0, q0, status0, script, wanted, user, taken, ready, event, gaveUp, iEventQueue.iQueue, AsProgram());
          return;
        }
      }
      TurnsAreOver(p0, q0, status0, script, wanted, user, taken, event, iEventQueue.iQueue, AsProgram(), iStatus);
      ReadyEvent(p0, q0, status0, script, wanted, user, taken, false, event, true, iEventQueue.iQueue, AsProgram());
      return false, event, true, taken;
    }

    /** A search that takes a key drops everything else first. */
    method PurgeForSearch(wanted: bool, user: UserEvents)
      requires Settled()
      modifies iThread, iEventQueue`iQueue, iEventQueue`iNumberOfExpiringEvents, iEventQueue`serials
      ensures Settled() && iEventQueue.iQueue == Offered(old(iEventQueue.iQueue), wanted, user)
    {
      hide Inv, Balance;
      SettledHolds();
      if user == UserEventsKeysOnly && wanted {
        PurgeAllNonKeyEvents();
      }
    }

    /** One turn: the queue, and then an event that has arrived. */
    method IsEventReadyNow(wanted: bool, user: UserEvents, now: Circumstance)
      returns (answered: bool, ready: bool, event: Event, gaveUp: bool, ghost taken: seq<Event>)
      requires Settled() && (iStatus == Pending || iStatus.Ready?)
      modifies this`iStatus, this`iStatPtr, this`explicit, this`arrived, this`keyCompletions, iThread, iIOCollection
      modifies this`iPriorityKeyReady, this`iExpiryTimerReady, this`iForeignReady
      modifies iEventQueue`iQueue, iEventQueue`iNumberOfExpiringEvents, iEventQueue`iNumberOfEventsInBackupRegion
      modifies iEventQueue`history, iEventQueue`bornAt, iEventQueue`serials
      ensures Settled() && KeyStep() && (iStatus == Pending || iStatus.Ready?)
      ensures now.completions == [] ==> NothingReadier() && iIOCollection.iRequestArray == old(iIOCollection.iRequestArray)
      ensures answered && ready ==> Matches(user, event) && (!wanted ==> event in iEventQueue.iQueue)
      ensures answered && !ready && !gaveUp ==> iStatus == Pending && NoneMatches(iEventQueue.iQueue, user)
      ensures ready ==> answered
      ensures now.completions == [] && old(iStatus) == Pending ==> answered && !gaveUp && iStatus == Pending
      ensures taken == TakenIn(old(iStatus), now) || (taken == [] && ready && iStatus == old(iStatus))
      ensures !ready && Delivered(old(iStatus), now.completions).Ready? ==> !answered || now.outOfMemory
      ensures !ready && !Delivered(old(iStatus), now.completions).Ready? ==> answered && !gaveUp
      ensures !answered ==> iStatus == Pending && Delivered(old(iStatus), now.completions).Ready?
      ensures now.fepAppends == [] && !now.outOfMemory ==>
        Looked(old(AsProgram()), old(iEventQueue.iQueue) + taken, wanted, user, ready, event, iEventQueue.iQueue, AsProgram())
    {
      hide Inv, Balance, NoneMatches, NoneCompletes, Looked, Matches, Delivered, CompletesKeyRequest, KeyRequestCompleted;
      ghost var p, q := AsProgram(), iEventQueue.iQueue;
      answered, gaveUp, taken := true, false, [];
      ready, event := SearchQueue(wanted, user);
      assert q + [] == q;
      SettledHolds();
      if ready {
        return;
      }
      ghost var p1, q1, e1 := AsProgram(), iEventQueue.iQueue, event;
      Meanwhile(now.completions);
      if iStatus == Pending {
        return;
      }
      event := TakeWindowServerEvent();
      gaveUp := true;
      answered, ready := HandleNewEvent(wanted, user, event, now);
      taken := if now.fepConsumes then [] else [event];
      assert q1 + KeyEvents([]) == q1;
      if now.fepAppends == [] && !now.outOfMemory {
        NewEventIsLooked(p, q, wanted, user, e1, q1, p1, event, now.fepConsumes);
      }
    }

    /** Before every end of an Execute, those of EVAL and of callbacks too: a key
        that is waiting goes, and everything that is not a key. */
    method DoConsumeEvent(script: seq<Circumstance>)
      requires Settled() && (iStatus == Pending || iStatus.Ready?)
      modifies this`iStatus, this`iStatPtr, this`explicit, this`arrived, this`keyCompletions, iThread, iIOCollection
      modifies this`iPriorityKeyReady, this`iExpiryTimerReady, this`iForeignReady
      modifies iEventQueue`iQueue, iEventQueue`iNumberOfExpiringEvents, iEventQueue`iNumberOfEventsInBackupRegion
      modifies iEventQueue`history, iEventQueue`bornAt, iEventQueue`serials
      ensures Settled() && KeyStep() && (iStatus == Pending || iStatus.Ready?)
      ensures script == [] && old(iStatus == Pending && iStatPtr.None?) ==>
        var keys := KeysOf(old(iEventQueue.iQueue));
        iStatus == Pending && iEventQueue.iQueue == if keys == [] then [] else keys[1..]
    {
      hide Inv, Balance, KeysOf, Looked, Arriving, Busy;
      ghost var keys, p := KeysOf(iEventQueue.iQueue), AsProgram();
      KeysOfIsKeys(iEventQueue.iQueue);
      QuietTurns(iStatus);
      var ready, event, gaveUp;
      ghost var taken;
      ready, event, gaveUp, taken := IsEventReady(true, UserEventsKeysOnly, script);
      if script == [] && p.statPtr.None? {
        FirstKeyGoes(p, keys, ready, event, iEventQueue.iQueue, AsProgram());
      }
    }

    /** What IsEventReady does with an event fresh from the window server. It is
        consumed by a front-end processor, completes the key request, is the answer,
        or joins the queue, if there is memory for it. */
    method HandleNewEvent(wanted: bool, user: UserEvents, event: Event, now: Circumstance) returns (answered: bool, ready: bool)
      requires Settled()
      modifies this`iStatPtr, this`explicit, this`arrived, this`keyCompletions, iThread, iIOCollection`iPendingWords
      modifies iEventQueue`iQueue, iEventQueue`history, iEventQueue`bornAt, iEventQueue`serials
      ensures Settled() && KeyStep()
      ensures keyCompletions > old(keyCompletions) ==> !answered
      ensures ready ==> answered && Matches(user, event)
      ensures ready && !wanted ==> event in iEventQueue.iQueue
      ensures var q := old(iEventQueue.iQueue) + KeyEvents(now.fepAppends);
              var completes := CompletesKeyRequest(old(AsProgram()), event);
              && (now.fepConsumes ==> !answered && !ready && iEventQueue.iQueue == q && AsProgram() == old(AsProgram()))
              && (!now.fepConsumes && completes ==>
                    !answered && !ready && iEventQueue.iQueue == q && iStatPtr.None? && explicit == old(explicit) + 1
                    && AsProgram() == KeyRequestCompleted(old(AsProgram())))
              && (!now.fepConsumes && !completes ==> AsProgram() == old(AsProgram()))
              && (!now.fepConsumes && !completes && Matches(user, event) && wanted ==> answered && ready && iEventQueue.iQueue == q)
              && (!now.fepConsumes && !completes && !(Matches(user, event) && wanted) && !now.outOfMemory ==>
                    iEventQueue.iQueue == q + [event] && ready == answered == Matches(user, event))
              && (!now.fepConsumes && !completes && !(Matches(user, event) && wanted) && now.outOfMemory ==>
                    iEventQueue.iQueue == q && answered && !ready)
    {
      hide Inv, Balance, KeyEvents, Matches;
      FepAppends(now.fepAppends);
      if now.fepConsumes {
        return false, false;
      }
      var completes := EventCompletesAnyOplAsynchronousWservRequest(event);
      if completes {
        return false, false;
      }
      if Matches(user, event) && wanted {
        return true, true;
      }
      var ok := AppendEvent(event, now.outOfMemory);
      if Matches(user, event) {
        return true, ok;
      }
      return !ok, false;
    }

    // ------------------------------------------------- asynchronous keywords

    /** IOA: a request with a status word that says it is pending. */
    method AddRequest(priority: TInt, word: int)
      requires Settled()
      modifies iIOCollection
      ensures Settled() && word in iIOCollection.iPendingWords
      ensures iIOCollection.iRequestArray == old(iIOCollection.iRequestArray) + [Request(priority, word, false, false)]
    {
      hide CEventQueue.Valid;
      ghost var old_ := iIOCollection.iRequestArray;
      iIOCollection.iRequestArray := iIOCollection.iRequestArray + [Request(priority, word, false, false)];
      assert iIOCollection.iRequestArray[..|old_|] == old_;
      iIOCollection.iPendingWords := iIOCollection.iPendingWords + {word};
    }

    /** KEYCANCEL, and KEYA or GETEVENTA while another is outstanding. The final
        wait is for the signal of the request just cancelled. When the status
        word is not that of an outstanding request, its request has completed
        already, say, the wait takes the signal of something else: an explicit
        one if there is one, otherwise one that something ready will miss; and
        it hangs if there is none. */
    method CancelKeyRequest(word: int) returns (blocked: bool)
      requires Settled()
      modifies this`iStatPtr, this`explicit, this`taken, iThread, iIOCollection`iPendingWords
      ensures Inv() && iEventQueue.BackupIsEmpty()
      ensures old(iStatPtr) == Some(word) ==>
        && Settled() && !blocked && iStatPtr.None? && iThread.iSemaphore == old(iThread.iSemaphore)
        && iIOCollection.iPendingWords == old(iIOCollection.iPendingWords) - {word} && explicit == old(explicit)
      ensures old(iStatPtr) != Some(word) ==>
        && iStatPtr == old(iStatPtr) && iIOCollection.iPendingWords == old(iIOCollection.iPendingWords)
        && (blocked <==> old(iThread.iSemaphore) == 0) && (!blocked ==> iThread.iSemaphore == old(iThread.iSemaphore) - 1)
        && (blocked ==> Settled() && iThread.iSemaphore == 0)
        && (!blocked && old(explicit) > 0 ==> Settled() && explicit == old(explicit) - 1 && taken == old(taken) + 1)
        && (!blocked && old(explicit) == 0 ==> Balance() == -1 && taken == old(taken))
    {
      NothingOwedIsNegative();
      hide CEventQueue.Valid;
      blocked := false;
      if iStatPtr == Some(word) {
        iIOCollection.iPendingWords := iIOCollection.iPendingWords - {word};
        iStatPtr := None;
        iThread.Signal(1);
        iThread.WaitForAnyRequest();
      } else if iThread.iSemaphore == 0 {
        blocked := true;
      } else {
        iThread.WaitForAnyRequest();
        ghost var lost := Bit(explicit > 0);
        explicit, taken := explicit - lost, taken + lost;
      }
    }

    /** KEYA and GETEVENTA: completed at once if a suitable event is there. */
    method RequestKey(word: int, keysOnly: bool, script: seq<Circumstance>) returns (ready: bool)
      requires Settled() && (iStatus == Pending || iStatus.Ready?)
      modifies this`iPriorityKeyReady, this`iExpiryTimerReady, this`iForeignReady
      modifies this`iStatus, this`iStatPtr, this`iKeysOnly, this`explicit, this`arrived, this`taken, this`keyCompletions
      modifies iThread, iIOCollection
      modifies iEventQueue`iQueue, iEventQueue`iNumberOfExpiringEvents, iEventQueue`iNumberOfEventsInBackupRegion
      modifies iEventQueue`history, iEventQueue`bornAt, iEventQueue`serials
      ensures Settled() && iKeysOnly == keysOnly && taken == old(taken)
      ensures iStatPtr == Some(word) || (iStatPtr.None? && word !in iIOCollection.iPendingWords)
      ensures script == [] ==> NothingReadier() && iIOCollection.iRequestArray == Noted(old(iIOCollection.iRequestArray))
      ensures script == [] && old(iStatus == Pending && iEventQueue.iQueue == []) ==>
        !ready && iStatPtr == Some(word) && iStatus == Pending && explicit == old(explicit) && iEventQueue.iQueue == []
      ensures NoText(script) ==>
        var all := old(iEventQueue.iQueue) + Arriving(old(iStatus), script, 10);
        && (iStatPtr.None? <==> all != [] && if keysOnly then all[0].Key? else all[0].Message? ==> all[0].isCreateOrOpen)
        && explicit == old(explicit) + Bit(iStatPtr.None?)
        && (Arriving(old(iStatus), script, 10) == [] ==>
              iEventQueue.iQueue == if iStatPtr.None? then old(iEventQueue.iQueue)[1..] else old(iEventQueue.iQueue))
      ensures old(iStatPtr).Some? && old(iStatPtr).value != word ==> old(iStatPtr).value !in iIOCollection.iPendingWords
    {
      hide CEventQueue.Valid;
      if iStatPtr.Some? {
        var blocked := CancelKeyRequest(iStatPtr.value);
      }
      iKeysOnly, iStatPtr := keysOnly, Some(word);
      iIOCollection.iPendingWords := iIOCollection.iPendingWords + {word};
      ghost var p, q, status, taken := AsProgram(), iEventQueue.iQueue, iStatus, [];
      var event, gaveUp;
      hide Inv, Balance, Looked, Arriving, Busy, NoText;
      ready, event, gaveUp, taken := IsEventReady(false, UserEventsAny, script);
      FirstEventDecides(p, q, taken, Arriving(status, script, 10), NoText(script), ready, event, iEventQueue.iQueue, AsProgram());
      QuietTurns(status);
    }
  }
}
