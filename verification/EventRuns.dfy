/** Runs of the event loop from its start in which a promise is not kept. */
module EventRuns {
  import opened Kernel
  import opened EventQueue
  import opened EventSources
  import opened Scenes
  import opened WaitRuns
  import opened PauseRuns
  import opened Searches
  import opened EventHandler
  import opened Wrappers

  /** The handler of a program that has just started. */
  method NewHandler() returns (h: CWsEventHandler)
    ensures fresh(h) && fresh(h.iThread) && fresh(h.iEventQueue) && fresh(h.iIOCollection)
    ensures h.Settled() && h.IsIdle() && h.iStatus == Pending && !h.iIsSuspended && h.iStatPtr.None? && h.WakeUps() == 0
    ensures h.iExpiryTimerActive && h.iEventQueue.iQueue == [] && h.iEventQueue.iNumberOfExpiringEvents == 0
    ensures h.iIOCollection.iRequestArray == [] && h.iIOCollection.iPendingWords == {}
    ensures h.taken == 0 && h.explicit == 0 && h.iEventQueue.leak == 0 && !h.iKeysOnly
  {
    var thread := new Thread();
    var queue := new CEventQueue(thread);
    var ioCollection := new CIOCollection();
    h := new CWsEventHandler(thread, queue, ioCollection);
  }

  /** One request has been made with this priority and has completed, and IOWAIT
      has not collected it. */
  method WithCompletedRequest(priority: TInt) returns (h: CWsEventHandler)
    ensures fresh(h) && fresh(h.iThread) && fresh(h.iEventQueue) && fresh(h.iIOCollection)
    ensures h.Settled() && h.IsIdle() && h.iStatus == Pending && !h.iIsSuspended && h.WakeUps() == 1
    ensures h.explicit == 0 && h.iEventQueue.leak == 0 && h.iEventQueue.iQueue == []
    ensures h.iIOCollection.iRequestArray == [Request(priority, 1, true, false)]
    ensures h.iThread.iSemaphore == 1 && h.iStatPtr.None?
  {
    hide CEventQueue.Valid;
    h := NewHandler();
    h.AddRequest(priority, 1);
    OneCompleted(Request(priority, 1, false, false));
    h.CompleteRequest(0);
    OneCompleted(Request(priority, 1, true, false));
    hide Completed;
  }

  lemma {:induction false} OneCompleted(r: Request)
    ensures Completed([r]) == Bit(r.completed)
  {
    assert [r][..0] == [];
  }

  /** The check between opcodes hangs on one uncollected request: it absorbs its
      own signal and the dummy one. */
  method PollHangs(script: seq<Circumstance>) returns (h: CWsEventHandler, outcome: WaitOutcome)
    requires Quiet(script) && |script| > 5
    ensures fresh(h) && h.iThread.iSemaphore == 0 && outcome == StillWaiting
  {
    h := WithCompletedRequest(EActivePriorityWsEvents + 3);
    OneCompleted(h.iIOCollection.iRequestArray[0]);
    outcome := h.HandleAnyCompletedEvents(5, script);
  }

  /** GET hangs although a key is there: a completed read from a device absorbs
      the signal of the key press, as often as one comes. */
  method GetHangs(script: seq<Circumstance>) returns (h: CWsEventHandler, outcome: WaitOutcome)
    ensures fresh(h) && outcome == StillWaiting
    ensures Quiet(script) && script != [] && !script[0].fepConsumes ==> h.iStatus == Ready(Key(13))
  {
    h := WithCompletedRequest(EActivePriorityWsEvents + 3);
    h.CompleteSystemRequest(EventArrives(Key(13)));
    assert h.iIOCollection.iRequestArray[0].completed;
    var key;
    outcome, key := h.DoGetUnmapped(script);
  }

  /** PAUSE hangs at its end: its timer and a request of the same priority have
      completed, and the key that ends it finds too few signals left. */
  method CancelHangs() returns (h: CWsEventHandler, outcome: WaitOutcome, p: SParameters)
    ensures fresh(h) && fresh(p) && outcome == BlockedInCancel && h.iThread.iSemaphore == 0
    ensures p.endedBy == UserEvent && p.iEvent == Key(13) && p.iNumberOfSignalsToReplace == 2
  {
    h := WithCompletedRequest(PauseTimer.priority);
    var timer := new TArrayOfAdditionalEventSources([PauseTimer.priority]);
    assert timer.iSources == [PauseTimer];
    UnconsumedNone(timer.iSources);
    var required := EventsRequired(UserEventsKeysOnly, false, false);
    TimerThenKeyOverdraws(Terms(required, None), h.Before(timer.iSources, Other(0)));
    outcome, p := h.WaitForEvent(required, timer, None, Other(0), TimerThenKey);
  }

  /** GET looks past a message, the timer throws the message away, and its signal
      is raised nevertheless: one wake-up more than anything there is. */
  method GetLeaksASignal() returns (h: CWsEventHandler)
    ensures fresh(h) && fresh(h.iThread) && fresh(h.iEventQueue) && fresh(h.iIOCollection)
    ensures h.Settled() && h.IsIdle() && !h.iIsSuspended && h.iStatPtr.None? && h.taken == 0
    ensures h.iIOCollection.iRequestArray == [] && h.explicit == 0
    ensures h.iEventQueue.leak == 1 && h.iThread.iSemaphore == 1 && h.WakeUps() == 1
  {
    h := NewHandler();
    var none := new TArrayOfAdditionalEventSources([]);
    assert none.iSources == [];
    var required := EventsRequired(UserEventsKeysOnly, false, false);
    TwoTicksLeakASignal(Terms(required, None), h.Before(none.iSources, Other(0)));
    var outcome, p := h.WaitForEvent(required, none, None, Other(0), TwoTicksThenKey);
  }

  /** The next IOWAIT takes it, although no request was ever made and no signal
      was given. */
  method IowaitReturnsForNothing() returns (h: CWsEventHandler, returned: bool)
    ensures fresh(h) && returned && h.taken == 1
  {
    h := GetLeaksASignal();
    returned := h.WaitForAnyOplAsynchronousRequestCompletion([Nothing]);
  }

  /** IOWAIT takes no wake-up when it is the key of a KEYA that ends it: the one
      raised for the KEYA will let another IOWAIT return. */
  method IowaitTakesNothing() returns (h: CWsEventHandler, returned: bool)
    ensures fresh(h) && returned && h.taken == 0 && h.iStatPtr.None? && h.explicit == 1
  {
    h := NewHandler();
    var ready := h.RequestKey(1, true, []);
    returned := h.WaitForAnyOplAsynchronousRequestCompletion([Just(EventArrives(Key(13)))]);
  }

  /** KEYA is completed at once if possible, says the code; but it looks at the
      first event only, and here the key is behind a message. */
  method KeyBehindMessage() returns (h: CWsEventHandler, ready: bool)
    ensures fresh(h) && h.Settled() && h.iStatPtr == Some(1) && h.iKeysOnly
    ensures h.iEventQueue.iQueue == [Message(false), Key(13)]
  {
    hide CEventQueue.Valid;
    h := NewHandler();
    var ok := h.AppendEvent(Message(false), false);
    ok := h.AppendEvent(Key(13), false);
    assert h.iEventQueue.iQueue == [Message(false), Key(13)];
    QuietTurns(h.iStatus);
    ready := h.RequestKey(1, true, []);
  }

  /** A key has been pressed before the pause. */
  const KeyThenTime: seq<Circumstance> := [Nothing, Just(SourceCompletes(0))]

  lemma {:induction false} KeyThenTimeIsPlain()
    ensures Plain(KeyThenTime) && LooksThenTimeIsUp(KeyThenTime, 1)
  {
    assert Just(SourceCompletes(0)).completions == [SourceCompletes(0)];
    assert KeyThenTime[1..] == [Just(SourceCompletes(0))] && KeyThenTime[1..][1..] == [];
  }

  /** After PAUSE 1 the key is there twice. */
  method PauseRepeatsKey() returns (h: CWsEventHandler, outcome: WaitOutcome)
    ensures fresh(h) && outcome == Returned && h.Settled() && h.iEventQueue.iQueue == [Key(13), Key(13)]
  {
    hide CEventQueue.Valid;
    h := NewHandler();
    var ok := h.AppendEvent(Key(13), false);
    KeyThenTimeIsPlain();
    hide KeyThenTime, Plain, LooksThenTimeIsUp;
    outcome, ok := h.DoPauseL(1, false, KeyThenTime);
  }

  /** After PAUSE 0 the first of two keys is the second. */
  method PauseSwapsKeys() returns (h: CWsEventHandler, outcome: WaitOutcome)
    ensures fresh(h) && outcome == Returned && h.Settled() && h.iEventQueue.iQueue == [Key(2), Key(1)]
  {
    hide CEventQueue.Valid;
    h := NewHandler();
    var ok := h.AppendEvent(Key(1), false);
    ok := h.AppendEvent(Key(2), false);
    KeysOfIsKeys([Key(1), Key(2)]);
    outcome, ok := h.DoPauseL(0, false, [Nothing]);
  }

  lemma {:induction false} TwoAreKeys()
    ensures KeysOf([Key(1), Message(false), Key(2)]) == [Key(1), Key(2)] && [Key(1), Key(2)][1..] == [Key(2)]
  {
    var q := [Key(1), Message(false), Key(2)];
    assert q[1..] == [Message(false), Key(2)] && q[1..][1..] == [Key(2)];
    assert KeysOf([Key(2)]) == [Key(2)] && KeysOf(q[1..]) == [Key(2)];
  }

  /** EVAL, or a callback, or the end of the program: the key typed ahead is gone. */
  method ConsumeTakesKey() returns (h: CWsEventHandler)
    ensures fresh(h) && h.Settled() && h.iEventQueue.iQueue == [Key(2)]
  {
    hide CEventQueue.Valid;
    h := NewHandler();
    var ok := h.AppendEvent(Key(1), false);
    ok := h.AppendEvent(Message(false), false);
    ok := h.AppendEvent(Key(2), false);
    assert h.iEventQueue.iQueue == [Key(1), Message(false), Key(2)];
    TwoAreKeys();
    hide KeysOf;
    h.DoConsumeEvent([]);
  }

  /** KEYCANCEL without a KEYA takes the signal of a completed request: the request
      is there, and the thread would block for it. */
  method KeyCancelTakesSignal() returns (h: CWsEventHandler, blocked: bool)
    ensures fresh(h) && !blocked && h.iThread.iSemaphore == 0
    ensures |h.iIOCollection.iRequestArray| == 1 && h.iIOCollection.iRequestArray[0].completed
  {
    hide CEventQueue.Valid;
    h := WithCompletedRequest(EActivePriorityWsEvents + 3);
    blocked := h.CancelKeyRequest(1);
  }
}
