# The OPL runtime, modelled and verified

OPL programs run on a byte-code interpreter that shares one thread with the
window server, a front-end processor and any number of asynchronous requests.
This project models the parts of it whose correctness cannot be seen in one
place, and proves what they keep over whole runs. Check it with
`dafny verify dfyconfig.toml`.

| files | part of the runtime |
|---|---|
| Kernel, EventQueue, EventSources, EventHandler, Dialogs | the event loop, which counts the signals of the thread semaphore by hand |
| Scenes, WaitRuns, PauseRuns, Searches, Arrivals | a wait as a function of what it sees and of a script of what happens meanwhile; when it ends and what becomes of every event, over whole runs |
| EventRuns, RuntimeRuns | runs on the objects themselves in which a promise is not kept |
| Stack, Strings | the argument stack: values of all sizes in one array of bytes |
| GlobalsTable, Modules, Frames, Nesting, Traces, Runtime | calls and returns, dynamically scoped globals, module counts, error handling, and the nested execution of EVAL and of callbacks |
| Console | text output to a window with or without scrolling and wrapping |
| Database | the record number and the update modes of one open table |
| CheckedArithmetic, Menus | arithmetic that leaves on overflow; the menu arrays |

How things are modelled:

- The operating system is a semaphore counter and completions that the
  environment may bring about whenever the thread waits. A wait is a step that
  is possible only while the counter is above zero; each comment in the source
  that a wait "returns straightaway" is a proof obligation.
- What happens while a program waits is a script: for each turn what completes
  before it, which active object runs, what a front-end processor does. The
  methods of the event loop are proved to do what the functions of Scenes say,
  for every script; a statement about every script is one about every
  interleaving with the environment.
- A leave is a result. What a method says about its leave is what the clean-up
  items and destructors have put back.
- The interpreter runs opcodes from a script, each with what the environment
  does (whether memory runs out, whether a file can be read). An opcode whose
  operands are not on the stack is not offered, as in code that the translator
  makes. The translator puts TRAP right before the command it belongs to, after
  the arguments, so TRAP and its command are one step. The runtime keeps a shadow
  of the live frames and of their operands, like the one the debug build keeps of
  the types; the bytes, the buckets, the counts and the chain of frames are proved
  to agree with it.
- The three fields of a frame that change after its construction (error handler,
  EVAL nest count, table of globals) are kept in the list of live frames. They only
  ever change in the innermost one.
- What an Execute does is a run: a sequence of turns, one for each opcode it
  consumes, each with the states before and after it and what the error handler made
  of an error; the turn of an EVAL or of a callback holds the whole run inside it.
  Execute returns its run as a ghost value, and the theorems about runs are proved
  of runs alone.
- `Running` holds between opcodes. `Sound` holds at every leave: then nothing is
  known of the operands of the innermost procedure.

## Where the code differs from what its comments or its users expect

Each of these is stated and proved, with the condition under which it happens.

- `PurgeAllExpiringEvents` does not correct the number of backed-up events. When
  the expiry timer fires in the middle of a wait that has backed events up, the
  semaphore ends up with one signal too many for each of them that is purged; the
  ghost field `leak` counts them exactly. `EventRuns.GetLeaksASignal` is such a run,
  and in `EventRuns.IowaitReturnsForNothing` the next IOWAIT returns although no
  request was ever made.
- The check for events between opcodes can block although its comment says it
  returns straightaway: the handler of requests takes the dummy signal too. In an
  idle program it blocks if and only if some request has completed, and the
  completed requests, the explicit and the leaked signals together are fewer than
  the limit. `EventRuns.PollHangs` has one completed request.
- A completed request of the program that has not been collected absorbs the
  signals of whatever comes after it in the order of the handlers. GET never
  returns, whatever is pressed, once a request has completed whose priority is
  above that of window server events, as those of devices are
  (oplr/src/IODEV.CPP:49, 143, 482, 596); the timer of PAUSE never ends it once a
  request of at least the timer's priority has. When nothing else happens the
  conditions are exact.
- The final cancelling of event sources blocks if and only if there are more
  signals to put back than there is anything outstanding. In
  `EventRuns.CancelHangs` a PAUSE, a completed request and a key press bring that
  about.
- KEYA or GETEVENTA completing inside IOWAIT ends it and leaves a wake-up for the
  next IOWAIT. Without one outstanding, IOWAIT takes exactly one wake-up.
- KEYCANCEL with no request of that status word outstanding waits all the same:
  it takes a signal that belongs to something else, and hangs if and only if there
  is none. After `EventRuns.KeyCancelTakesSignal` the thread would block for a
  request that has completed.
- KEYA and GETEVENTA complete at once, "if possible" as the code says, only if the
  very first event is one for them: any other ends the search. After
  `EventRuns.KeyBehindMessage` the key is still behind a message, and KEYA pending.
- Every Execute, also the nested ones of EVAL and of callbacks, ends by consuming an
  event: everything in the queue that is not a key goes, and the first key
  (`EventRuns.ConsumeTakesKey`).
- PAUSE appends to the event queue the event its wait remembers, and the wait
  remembers every event it looks at. After a positive delay, in which no event is
  taken, the last event of the queue is there twice if there is one at all
  (`EventRuns.PauseRepeatsKey`). A key that ends a PAUSE is put behind the keys
  that followed it (`EventRuns.PauseSwapsKeys`).
- A callback can leave its frame behind: chained to nothing, with its globals in
  the table and its module counted. It does so at once if and only if its procedure
  gets a frame and then an external is in neither its own globals nor those of the
  live frames, or memory runs out while the table of externals is filled
  (`RuntimeRuns.CallbackLosesFrame`, `RuntimeRuns.LackOfMemoryLosesFrame`). Later it
  does if STOP is reached in it, not inside EVAL, when the flag that says "in a callback" is clear, and
  the flag is clear if and only if another callback has ended since it began
  (`RuntimeRuns.StopLosesFrame`). The destructor of the interrupted procedure then
  takes the wrong entries of the table (`RuntimeRuns.DestructorTakesLost`).
- `InitCallbackL` appends its entry before it knows whether there is room for the
  name. If the entry could be appended and the name does not fit, the entry stays,
  and an error in the callback around it takes the stack back too little: the stack
  is restored if and only if no entry was left behind in this way inside.
  `RuntimeRuns.FailedInitLeavesEntry` is a run.
- A string that a procedure returns is not checked against the room its caller
  needs; the stack pointer can get below `iBase` although every procedure stays
  within what it declares. In every run it stays above if and only if each returned
  string leaves the caller its `iMaxStack`; `RuntimeRuns.ReturnedStringTakesRoom`
  is a run in which one does not.
- UPDATE at the end of a table deletes the row whose bookmark is left from an
  earlier edit. If the old row cannot be found or deleted, the edited one has been
  stored already, and the record number need not be where the cursor is.
- CANCEL does not clear the flag that the table was empty. After an edit of an
  empty table that CANCEL abandons, APPEND adds a blank row, and the next
  assignment and UPDATE end with an end-of-file error and lose the edit.
- Moving off a record while an INSERT is open abandons it but leaves its flag; a
  later MODIFY and PUT then set a wrong record number.
- POSITION reads the record number back as 16 bits. From row 32768 on, or when the
  record number is not where the cursor is, it arrives all the same unless it
  chooses to step from where it is.

## Model

| member | source | states |
|---|---|---|
| EventQueue.CEventQueue.AppendEvent | oplr/src/IOMAIN.CPP:203-211 | the event is last and raises one signal, or nothing changes |
| EventQueue.CEventQueue.RemoveEventAdjustingNumberOfExpiringEvents | oplr/src/IOMAIN.CPP:236-243 | exactly the event goes, the others keep their arrival order, and the expiring prefix shrinks only when it was in it |
| EventQueue.CEventQueue.RestoreAllEventsFromBackup | oplr/src/IOMAIN.CPP:169-173 | every backed-up event gets its signal back |
| EventQueue.CEventQueue.PurgeAllNonKeyEvents | oplr/src/IOMAIN.CPP:175-188 | the keys remain, in order, and exactly one signal goes with each purged event, without blocking |
| EventQueue.KeysOfIsKeys | oplr/src/IOMAIN.CPP:175-188 | the queue after the purge holds keys only; it is the old queue if and only if that held nothing else |
| EventQueue.KeysOfSelects | oplr/src/IOMAIN.CPP:175-188 | all the keys of the old queue are in the new one, in their order, and nothing else |
| EventQueue.CEventQueue.PurgeAllExpiringEvents | oplr/src/IOMAIN.CPP:245-258 | exactly the expiring prefix goes, what remains becomes the expiring prefix; the surplus of signals is the overlap with the backup region |
| EventQueue.CEventQueue.RunL | oplr/src/IOMAIN.CPP:289-293 | an event goes exactly at the second tick after its arrival, for every mix of operations in between |
| EventQueue.AgedTick | oplr/src/IOMAIN.CPP:245-258 | the survivors of a tick are those that arrived since the one before, and they are the next expiring prefix |
| EventQueue.CEventQueue.PrepareToStartActiveScheduler | oplr/src/IOMAIN.CPP:190-196 | the queue is emptied with its signals |
| EventSources.CIOCollection.HandleAnyCompletedOplAsynchronousRequests | oplr/src/IOMAIN.CPP:823-845 | every completed request has its status word set once; the result is the first of those with the highest priority |
| EventSources.CIOCollection.RemoveCompletedOplAsynchronousRequest | oplr/src/IOMAIN.CPP:847-854 | one request goes, and with it one completion |
| EventSources.TArrayOfAdditionalEventSources.CompletedAdditionalEventSourceWithHighestPriority | oplr/src/IOMAIN.CPP:391-406 | the last of the completed, unconsumed sources of highest priority, or none if and only if there is none |
| EventSources.TArrayOfAdditionalEventSources.MarkAsConsumed | oplr/src/IOMAIN.CPP:408-419 | one source less is owed a signal |
| EventSources.TArrayOfAdditionalEventSources.CancelAll | oplr/src/IOMAIN.CPP:421-438 | every source is cancelled and its signal consumed, unless the semaphore is empty while a source is still owed one |
| EventSources.HandlersAreThosePresent | oplr/src/IOMAIN.CPP:1837-1961 | the array holds the user handler and each source present exactly once, then the final handler |
| EventSources.HandlersArePriorityOrdered | oplr/src/IOMAIN.CPP:1837-1961 | the handlers are in non-increasing priority |
| EventSources.FirstTwoHandlers | oplr/src/IOMAIN.CPP:1760-1775 | what the dispatch loop needs to know of the first two handlers to end after them |
| EventHandler.CWsEventHandler.EventCompletesAnyOplAsynchronousWservRequest | oplr/src/IOMAIN.CPP:1617-1645 | exactly the events of the kind asked for complete the request, with one signal for IOWAIT |
| EventHandler.CWsEventHandler.OfferEventToPriorityKeyHandler | oplr/src/IOMAIN.CPP:1802-1835 | consumes the signal in hand if and only if the priority key has completed |
| EventHandler.CWsEventHandler.OfferEventToActiveScheduler | oplr/src/IOMAIN.CPP:2094-2100 | runs one completed object of sufficient priority, or there is none |
| EventHandler.CWsEventHandler.OfferWindowServerEvent | oplr/src/IOMAIN.CPP:2008-2092 | the event answers the wait, completes a request, is queued or is dropped, and its signal is accounted for in each case |
| EventHandler.CWsEventHandler.OfferEventToUserEventHandler | oplr/src/IOMAIN.CPP:2008-2092 | consumes the signal in hand unless there is neither a queued nor a new event |
| EventHandler.CWsEventHandler.OfferEventToArrayOfAdditionalEventSources | oplr/src/IOMAIN.CPP:1984-1992 | marks the best source as consumed and ends the wait |
| EventHandler.CWsEventHandler.OfferEventToOplAsynchronousRequest | oplr/src/IOMAIN.CPP:1994-2006 | removes the best request for a wait on requests; otherwise its signal is to be put back |
| EventHandler.CWsEventHandler.FinalOfferEventFunction | oplr/src/IOMAIN.CPP:1963-1982 | is reached only when a signal was raised that has no source |
| EventHandler.CWsEventHandler.Dispatch | oplr/src/IOMAIN.CPP:1760-1775 | two offers are enough: the first handler takes the signal unless it is the user handler with nothing to do, and then the second does; an active object at least as important as the handler comes before it |
| EventHandler.CWsEventHandler.Round | oplr/src/IOMAIN.CPP:1754-1776 | one signal does exactly what the function of Scenes says, and is accounted for |
| EventHandler.CWsEventHandler.EndPoll | oplr/src/IOMAIN.CPP:1749-1753 | the last wait of a poll takes the dummy signal, or a leaked one |
| EventHandler.CWsEventHandler.Play | oplr/src/IOMAIN.CPP:1747-1777 | the loop does to the objects what the script does to the scene, for every script |
| EventHandler.CWsEventHandler.Finish | oplr/src/IOMAIN.CPP:1778-1785 | signals are put back and the balance is zero; the queue is that of the loop, or its keys after a wait for keys; cancelling blocks if and only if there are more signals to put back than there is anything outstanding |
| EventHandler.CWsEventHandler.WaitForEvent | oplr/src/IOMAIN.CPP:1728-1785 | how the wait ends is a function of what it sees and of the script; only what was asked for can end it; on return the semaphore equals what is outstanding, and after a wait for keys every queued event is a key; a thread blocked with no request uncollected and no leaked signal has nothing to do and is in no poll |
| Scenes.AfterScriptEndsProperly | oplr/src/IOMAIN.CPP:1747-1777 | over every script a wait ends for a reason it was for, not while suspended, with a matching event if by one, and a key request outstanding can only complete |
| Scenes.AfterFinalKeeps | oplr/src/IOMAIN.CPP:1963-1982 | the final handler is reached only with a signal that nothing ready is owed |
| Arrivals.NothingIsLost | oplr/src/IOMAIN.CPP:1747-1777 | over every script without ticks, front-end processor and lack of memory: each event, counted, that was there or came is still there, or ended the wait, or completed the key request |
| WaitRuns.BlockedForGoodReason | oplr/src/IOMAIN.CPP:1754 | a blocked wait without uncollected requests and leaked signals: nothing is ready, no source is unconsumed, and it is no poll |
| WaitRuns.UserIsFirstExactly | oplr/src/IOMAIN.CPP:1837-1961 | when the user handler is the first of all, in terms of the two priorities |
| WaitRuns.UserPrecedesRequest | oplr/src/IOMAIN.CPP:1837-1961 | the user handler precedes a completed request if and only if the request has a lower priority than window server events, or the same and there is no source, or one above it |
| WaitRuns.SourcePrecedesRequest | oplr/src/IOMAIN.CPP:1837-1961 | a source precedes a request if and only if its priority is higher |
| WaitRuns.AbsorbingWaitNeverEnds | oplr/src/IOMAIN.CPP:1994-2006 | a completed request that takes the signals takes all there are, and the thread blocks with everything else as it was |
| WaitRuns.WantedEventEndsTheWait | oplr/src/IOMAIN.CPP:1728-1785 | a matching event that is ready ends the wait if and only if the user handler comes first; if a completed request does, it never ends |
| WaitRuns.CompletedSourceEndsTheWait | oplr/src/IOMAIN.CPP:1984-2006 | a completed source ends the wait if and only if no completed request has at least its priority |
| WaitRuns.StarvedWaitNeverEnds | oplr/src/IOMAIN.CPP:1994-2006 | for every script: a completed request before the sources, and before the user if the user is waited for, keeps the wait from ever ending |
| WaitRuns.AbsorbingPollEnds | oplr/src/IOMAIN.CPP:1747-1777 | with a completed request in the way a poll ends if and only if there are more signals than it may still handle |
| WaitRuns.IdlePollEndsExactly | oplr/src/IOMAIN.CPP:1741-1777 | a poll of an idle program blocks if and only if some request has completed and, with the explicit and leaked signals, there are fewer than the limit |
| WaitRuns.KeyEndsGet | oplr/src/IOMAIN.CPP:1132-1139 | with a key there, GET returns if and only if no completed request has a priority above window server events |
| WaitRuns.IdleIowaitEnds | oplr/src/IOMAIN.CPP:1668-1673 | IOWAIT in an idle program returns at once if and only if there is a completed request or a signal of nobody's |
| WaitRuns.KeyEndsIowait | oplr/src/IOMAIN.CPP:1617-1645 | with KEYA outstanding and nothing to take, a key ends IOWAIT and leaves an explicit signal |
| WaitRuns.TwoTicksLeakASignal | oplr/src/IOMAIN.CPP:245-258 | two ticks during a GET that has looked past an event leave one leaked signal |
| WaitRuns.ResumedLooksAgain | oplr/src/IOMAIN.CPP:1802-1835 | after a priority key resumes the program, a source that completed meanwhile ends the wait; otherwise every event set aside and every request passed over is looked at again, each with its signal |
| PauseRuns.TimerThenKeyOverdraws | oplr/src/IOMAIN.CPP:421-438 | the timer of a PAUSE and a request of its priority complete, then a key: two signals to put back and one that anything is owed |
| PauseRuns.TimerLeavesLastRemembered | oplr/src/IOMAIN.CPP:2016-2090 | over every script without priority keys and ticks, a wait for a source looks at all events, keeps them in order, and remembers the last |
| PauseRuns.PlainPauseRepeatsLast | oplr/src/IOMAIN.CPP:1577-1604 | for every such script, PAUSE with a positive delay leaves the last event of the queue there twice, if there is one |
| PauseRuns.KeyGoesLast | oplr/src/IOMAIN.CPP:1577-1604 | a queued key that ends a PAUSE is put behind the other keys |
| EventHandler.CWsEventHandler.WaitForAnyOplAsynchronousRequestCompletion | oplr/src/IOMAIN.CPP:1668-1673 | IOWAIT takes exactly one wake-up when no KEYA or GETEVENTA is outstanding, and none if one completes meanwhile; when an idle program's IOWAIT returns |
| EventHandler.CWsEventHandler.WaitForOplAsynchronousRequestCompletion | oplr/src/IOMAIN.CPP:1676-1705 | IOWAITSTAT returns with its status word not pending and a net loss of exactly one wake-up, however many completions it absorbed, when no KEYA or GETEVENTA is outstanding |
| EventHandler.CWsEventHandler.HandleAnyCompletedEvents | oplr/src/IOMAIN.CPP:1652-1657 | the poll keeps the balance; a blocked one has a completed request uncollected; in an idle program it blocks exactly on the guard of IdlePollEndsExactly |
| EventHandler.CWsEventHandler.DoGetUnmapped | oplr/src/IOMAIN.CPP:1132-1139 | GET returns a key and leaves only keys queued; it never returns with a completed request above window server events, and with a key there it returns exactly if there is none |
| EventHandler.CWsEventHandler.Pause | oplr/src/IOMAIN.CPP:1577-1604 | what PAUSE waits for, and the queue afterwards: what the wait left, then the event it remembers |
| EventHandler.CWsEventHandler.DoPauseL | oplr/src/IOMAIN.CPP:1577-1604 | when the timer ends PAUSE and when it never can; the last event twice, or the first key last |
| EventHandler.CWsEventHandler.WaitWhileSuspended | oplr/src/IOMAIN.CPP:1659-1666 | returns with the balance kept and the program not suspended |
| EventHandler.CWsEventHandler.IsEventReady | oplr/src/IOMAIN.CPP:1469-1575 | whatever happens in each of its turns, it never blocks and keeps the balance; without a front-end processor's text, the answer, the queue and the key request are those of one search of all events, queued and taken meanwhile; a ready event is the answer, or queued, or completes the request, or is still ready; when it gives up, exactly |
| EventHandler.CWsEventHandler.HandleNewEvent | oplr/src/IOMAIN.CPP:1536-1569 | a new event is consumed by the front-end processor, or completes the key request, or is the answer exactly when it matches and is wanted, or joins the queue, or there is no memory for it |
| EventHandler.CWsEventHandler.SearchQueue | oplr/src/IOMAIN.CPP:1491-1531 | the first event that is asked for, behind those that complete a key request; its waits never block |
| Searches.FirstMatch | oplr/src/IOMAIN.CPP:1491-1531 | no event before the one found is asked for |
| Searches.LookedMeans | oplr/src/IOMAIN.CPP:1491-1531 | without a key request: something is found if and only if there is an event that is asked for; it is the first, and it goes exactly if it is wanted |
| Searches.LookedLosesNone | oplr/src/IOMAIN.CPP:1491-1531 | every event stays, but the one found and wanted and the one that completes the key request; when the request completes, exactly |
| EventHandler.CWsEventHandler.DoConsumeEvent | oplr/src/IOMAIN.CPP:1463-1467 | the keys that were queued without the first, if nothing arrives and no key request is outstanding |
| EventHandler.CWsEventHandler.RequestKey | oplr/src/IOMAIN.CPP:1429-1455 | the new request is completed at once if and only if the first event there is, queued or taken, is one for it; otherwise it is outstanding; the one it replaces is not pending |
| EventHandler.CWsEventHandler.CancelKeyRequest | oplr/src/IOMAIN.CPP:1408-1427 | an outstanding request is cancelled and the wait that follows consumes the signal of the cancellation; otherwise a signal of something else is lost, or it hangs if and only if there is none |
| EventHandler.CWsEventHandler.AddRequest | oplr/src/IOMAIN.CPP:960-996 | a new request is last, pending, and owes no signal |
| EventHandler.CWsEventHandler.IoSignal | oplr/src/IOKEYWRD.CPP:198-201 | one wake-up arises |
| EventRuns.PollHangs | oplr/src/EN_MAIN.CPP:85 | with the limit of five, one completed request is enough for the poll to hang |
| EventRuns.GetHangs | oplr/src/IOMAIN.CPP:1132-1139 | with a completed read from a device, GET hangs with the key still there |
| EventRuns.CancelHangs | oplr/src/IOMAIN.CPP:421-438 | a PAUSE that hangs while its timer is cancelled |
| EventRuns.GetLeaksASignal | oplr/src/IOMAIN.CPP:245-258 | a state of the whole event loop with a leaked signal |
| EventRuns.IowaitReturnsForNothing | oplr/src/IOMAIN.CPP:1963-1982 | IOWAIT returns although no request was ever made |
| EventRuns.IowaitTakesNothing | oplr/src/IOMAIN.CPP:1617-1645 | IOWAIT ended by the key of a KEYA takes no wake-up |
| EventRuns.PauseRepeatsKey | oplr/src/IOMAIN.CPP:1600-1603 | one key is in the queue twice after PAUSE 1 |
| EventRuns.PauseSwapsKeys | oplr/src/IOMAIN.CPP:1600-1603 | two keys change places in PAUSE 0 |
| EventRuns.ConsumeTakesKey | oplr/src/EN_MAIN.CPP:107-112 | a key typed ahead is lost at the end of an Execute |
| EventRuns.KeyCancelTakesSignal | oplr/src/IOMAIN.CPP:1408-1416 | after KEYCANCEL a completed request is there and the semaphore is zero |
| EventRuns.KeyBehindMessage | oplr/src/IOMAIN.CPP:1429-1440 | KEYA stays outstanding with a key in the queue |
| Dialogs.COplActiveScheduler.PrepareToStartActiveScheduler | oplr/src/IOMAIN.CPP:534-567 | at every depth: Cone mode if and only if nested, the next event requested if and only if not, signals buffered if and only if nested |
| Dialogs.COplActiveScheduler.Turn | oplr/src/IOMAIN.CPP:357-362 | a signal is buffered only when no active object is ready, and never more than there are wake-ups |
| Dialogs.COplActiveScheduler.Completes | oplr/src/IOMAIN.CPP:543-557 | whatever completes, at any depth, keeps the invariant; a request is one wake-up more, and neither the window server request nor the expiry timer can complete while nested |
| Dialogs.COplActiveScheduler.NotifyActiveSchedulerStopped | oplr/src/IOMAIN.CPP:1107-1130 | back at depth 0 every buffered signal is raised again and the balance holds |
| Dialogs.COplActiveScheduler.StopBufferingAndReplaceAnyBufferedSignals | oplr/src/IOMAIN.CPP:332-340 | the semaphore rises by the number buffered |
| Stack.LongRoundTrip | oplr/src/STACK.CPP:42-86 | 32 bits read back are the value; so are the low 16 of a value pushed as 16 bits |
| Stack.HoldsInjective | oplr/src/STACK.CPP:42-155 | the bytes determine the value of a given type |
| Stack.CStack.constructor | oplr/src/STACK.CPP:24-40 | an empty stack of the size asked for, at least 512 bytes |
| Stack.CStack.PutValue | oplr/src/STACK.CPP:42-109 | the value is on top of the abstract stack, the bytes above and below it are unchanged |
| Stack.CStack.PushInt16 | oplr/src/STACK.CPP:42-50 | pushes one abstract value |
| Stack.CStack.PopInt16 | oplr/src/STACK.CPP:52-63 | pops the value that was pushed |
| Stack.CStack.PopInt32 | oplr/src/STACK.CPP:75-86 | pops the value that was pushed |
| Stack.CStack.PopReal64 | oplr/src/STACK.CPP:98-109 | pops the eight bytes that were pushed |
| Stack.CStack.PutString | oplr/src/STACK.CPP:112-127 | pushes the string, or leaves with the pointer moved and no byte changed exactly when too little room would remain |
| Stack.CStack.PushFromStack | oplr/src/STACK.CPP:112-127 | pushes the text a descriptor showed before, although source and target overlap |
| Stack.CStack.PopString | oplr/src/STACK.CPP:144-155 | the descriptor shows the string that was pushed |
| Stack.CStack.JumpParam | oplr/src/STACK.CPP:308-326 | skips exactly one value of that type |
| Stack.CStack.UnwindParams | oplr/src/STACK.CPP:330-337 | drops exactly the arguments of the call, for any number and types of them |
| Stack.CStack.NextParamL | oplr/src/STACK.CPP:266-273 | points at the argument, or leaves when its type differs |
| Stack.ParamTableHolds | oplr/src/FRAME.CPP:122-142 | the addresses computed while the arguments are skipped are where they lie, first parameter first |
| Stack.RoomExactly | oplr/src/STACK.CPP:118-120 | whatever a procedure goes on pushing within what it declared, the pointer stays above iBase if and only if the strings it has pushed leave that room |
| Strings.LeftStr | oplr/src/OPLCONV.CPP:118-129 | pushes the right prefix over its own source, or leaves exactly for a negative length |
| Strings.RightStr | oplr/src/OPLCONV.CPP:173-184 | pushes the right suffix over its own source, or leaves exactly for a negative length |
| Strings.MidStr | oplr/src/OPLCONV.CPP:141-156 | pushes the right substring over its own source, or leaves exactly for a start outside 1..length+1 or a negative length |
| Strings.ReptStr | oplr/src/OPLCONV.CPP:158-171 | pushes the repetition, or leaves exactly for a negative count or more than 255 characters |
| Strings.RepeatedAt | oplr/src/OPLCONV.CPP:166-170 | character by character, the text over and over |
| Strings.AddString | oplr/src/EN_ARITH.CPP:167-175 | pushes left followed by right, or leaves exactly above 255 characters |
| GlobalsTable.GetHashValue | oplr/src/GLOBTBL.CPP:79-88 | the loop computes the hash, which is a bucket number for every name |
| GlobalsTable.HashValue | oplr/src/GLOBTBL.CPP:79-88 | always 0 to 15, also for the word that has no absolute value |
| GlobalsTable.LookupInBucket | oplr/src/GLOBTBL.CPP:52-64 | looking in the bucket is looking through all live globals, innermost first |
| GlobalsTable.InnermostFirst | oplr/src/GLOBTBL.CPP:34-40 | a new frame's globals shadow older ones of the same name and type, and no others |
| GlobalsTable.LookupIsInnermost | oplr/src/GLOBTBL.CPP:52-64 | what is found is the first entry of that name and type, and nothing is found if and only if there is none |
| GlobalsTable.CGlobalsTbl.AddL | oplr/src/GLOBTBL.CPP:34-40 | one new innermost entry, or nothing |
| GlobalsTable.CGlobalsTbl.Remove | oplr/src/GLOBTBL.CPP:42-50 | the head of the bucket goes, whatever its name |
| GlobalsTable.CGlobalsTbl.Find | oplr/src/GLOBTBL.CPP:52-64 | the innermost global of that name and type |
| GlobalsTable.CGlobalsTbl.PrepareToAddC | oplr/src/GLOBTBL.CPP:91-99 | marks the head of every bucket |
| GlobalsTable.CGlobalsTbl.RemoveAddedGlobals | oplr/src/GLOBTBL.CPP:101-115 | the marks restore the table from before |
| GlobalsTable.CGlobalsTbl.AddGlobalsL | oplr/src/FRAME.CPP:328-341 | all declarations are added, last one first, or the table is as before |
| GlobalsTable.RemovingStep | oplr/src/FRAME.CPP:199-210 | the head taken for a declaration belongs to the frame that goes |
| GlobalsTable.CGlobalsTbl.RemoveGlobals | oplr/src/FRAME.CPP:199-210 | removing a frame's names restores exactly the table from before it |
| Modules.CModule.DecCount | oplr/src/MODULE.CPP:217-221 | the module is deleted exactly at zero |
| Modules.CModulesCollection.FindProcedure | oplr/src/MODULE.CPP:229-244 | no listed module before the one found has a procedure of that name, and in that one it is the first; nothing is found if and only if no listed module has one |
| Modules.FirstWithIsFirst | oplr/src/MODULE.CPP:199-244 | the same of the procedure that every call runs |
| Modules.CModulesCollection.LoadModuleL | oplr/src/MODULE.CPP:286-302 | adds one module, or reports exactly why not: already loaded, eight loaded, unreadable |
| Modules.CModulesCollection.UnloadModule | oplr/src/MODULE.CPP:265-284 | takes the module off the list, the others stay contiguous and in order; it is deleted if and only if no frame runs it |
| Modules.CModulesCollection.IncCountL | oplr/src/MODULE.CPP:46-57 | in every run a module's count is one for being listed and one for each live frame that runs it |
| Modules.CModulesCollection.DecCount | oplr/src/MODULE.CPP:217-221 | the module goes with its last frame if and only if it was unlisted |
| Modules.CModulesCollection.RunningAlive | oplr/src/MODULE.CPP:217-221 | no module is deleted while listed or under a live frame |
| Frames.GetParamsL | oplr/src/FRAME.CPP:122-142 | fits, wrong number or wrong type, exactly; the arguments stay where they are and the table points at them |
| Frames.ParametersIntact | oplr/src/FRAME.CPP:122-142 | at any depth of calls, the parameters of every live frame are unchanged where its table points |
| Runtime.COplRuntime.DeleteFrame | oplr/src/FRAME.CPP:190-219 | the table, the counts, the chain and the code address are those from before the frame |
| Runtime.COplRuntime.ConstructL | oplr/src/FRAME.CPP:20-51 | a new innermost frame, or everything as before; which one, exactly |
| Runtime.COplRuntime.Claim | oplr/src/FRAME.CPP:30-49 | count, room, data and globals are all claimed or none |
| Runtime.COplRuntime.FinishConstructionL | oplr/src/FRAME.CPP:53-69 | every external is bound to the innermost live global of its name and type, or the error, an undefined external or a lack of memory, is one of the new frame; which, exactly |
| Runtime.COplRuntime.GetExternsL | oplr/src/FRAME.CPP:144-182 | succeeds exactly when every external has a live global and no allocation for the table fails |
| Runtime.COplRuntime.RunProcedure | oplr/src/PUSHOC.CPP:360-371 | the arguments become the new frame's, the caller keeps the rest; or nothing but the stack pointer has changed; when there is a frame, and when it has an error, exactly |
| Runtime.COplRuntime.DoCallProcByStringExpr | oplr/src/PUSHOC.CPP:381-410 | the same for a name below the arguments; no name, or one that ends in a type, is no procedure |
| Runtime.COplRuntime.RemoveFrame | oplr/src/PUSHOC.CPP:459-470 | the frame and its arguments, and the name it was called by, are gone from the stack |
| Runtime.COplRuntime.Return | oplr/src/PUSHOC.CPP:440-457 | the caller's operands from before the arguments, with the value on top |
| Runtime.COplRuntime.ZeroReturn | oplr/src/PUSHOC.CPP:412-438 | the same with zero or the empty string |
| Runtime.COplRuntime.CallToReturn | oplr/src/PUSHOC.CPP:360-470 | a call, any run of its body with any nesting, and its return: frame, code address and operands of the caller are as before, less the arguments and with one value on top; the body is the turns of a run from the first opcode of the first procedure of that name; when it is not called, exactly |
| Runtime.COplRuntime.NeverBelow | oplr/src/STACK.CPP:118-120 | in every run in which each returned string left its caller its declared room, the pointer is above iBase and stays there within what is declared |
| Runtime.COplRuntime.BelowOtherwise | oplr/src/STACK.CPP:118-120 | once the strings leave less, the procedure can go below iBase within what it declared |
| RuntimeRuns.ReturnedStringTakesRoom | oplr/src/PUSHOC.CPP:440-457 | a run in which two procedures keep their declarations and the pointer is below iBase |
| Runtime.COplRuntime.ClearError | oplr/src/EN_ERROR.CPP:19-24 | the operands of the innermost frame go, TRAP is cleared |
| Runtime.COplRuntime.ErrorHandler | oplr/src/EN_ERROR.CPP:26-88 | no frame goes under TRAP; otherwise exactly the frames up to the nearest handler, none that is evaluating; stack, globals and counts are those of the survivors |
| Runtime.COplRuntime.Handle | oplr/src/EN_ERROR.CPP:73-86 | inside a nested Execute, only frames that this Execute made go, and all of them when none has a handler |
| Runtime.COplRuntime.Execute | oplr/src/EN_MAIN.CPP:90-115 | its outcome is that of a run in which every opcode consumed is a turn, in order, with exactly its effect, and every error a turn of the handler; success leaves the interrupted frames and operands with one value on top, failure the interrupted frames |
| Traces.ArgumentsAreOffered | oplr/src/PUSHOC.CPP:360-371 | arguments with their types on top are what a call takes, and what lies below them is left |
| Traces.ExhaustedHasSeenAll | oplr/src/EN_MAIN.CPP:90-115 | an observation ends without an outcome only when every opcode has been consumed, at any depth |
| Traces.NoErrorIsSkipped | oplr/src/EN_MAIN.CPP:97-107 | wherever an opcode leaves, the nearest handler of this Execute goes on, or there is none and the error is the outcome, with all frames of this Execute gone |
| Traces.UnhandledErrorFails | oplr/src/EN_ERROR.CPP:73-87 | an opcode that leaves with no handler above the interrupted frames ends the Execute with its error, whatever comes behind it |
| Traces.ErrorGoesToHandler | oplr/src/EN_ERROR.CPP:73-86 | with a handler in frame k and none above, exactly k frames go, the operands too, and the next opcode is one of the handler's |
| Traces.FinishedByReturn | oplr/src/PUSHOC.CPP:412-457 | a run succeeds only by a return or the end of its expression, and its result is the value that opcode found |
| Traces.CallsReturn | oplr/src/PUSHOC.CPP:360-470 | in every run, when the frames above a caller have gone by a return, the caller's frames, code address and operands are those from the call, less the arguments and with one value on top; otherwise it is the handler of a caller that goes on |
| Runtime.COplRuntime.Step | oplr/src/EN_MAIN.CPP:97-99 | the turn of the opcode: what it does, exactly when it leaves, the run inside it for EVAL and callbacks, and that it reaches no frame but the innermost |
| Runtime.COplRuntime.RunExpression | oplr/src/LB_MATHS.CPP:162-170 | EVAL to any depth is the run of its code in the same procedure: frames, nest counts and code address are as before, the operands too with the value of that run added on success |
| Runtime.COplRuntime.EvalStep | oplr/src/LB_MATHS.CPP:139-172 | the string is replaced by the value of the run, or the error of the translator, of the stack or of the run is passed on |
| Runtime.COplRuntime.InitCallbackL | oplr/src/OPLAPI.CPP:301-308 | remembers the stack pointer and pushes the name; without memory for the entry nothing has happened; the entry is left behind exactly when there was memory for it and the name leaves less room than the frame declares |
| Runtime.COplRuntime.PushParamL | oplr/src/OPLAPI.CPP:312-366 | pushes the parameter and its type exactly when it fits with room for the number, or goes back to where the callback began |
| Runtime.COplRuntime.PrepareCallback | oplr/src/OPLAPI.CPP:301-366 | name and parameters are on the stack as a call by name expects them; otherwise everything is as before, or an entry and a lower pointer are left behind exactly when the entry was appended and the name does not fit |
| Runtime.COplRuntime.EnterCallback | oplr/src/OPLAPI.CPP:368-377 | the procedure runs without a caller; its frame is left behind exactly when it gets one and an external is undefined or the table of externals cannot be filled |
| Nesting.ResolvedExactly | oplr/src/FRAME.CPP:144-182 | an external is resolved if and only if the procedure itself or a live frame declares it with that type |
| RuntimeRuns.CallbackLosesFrame | oplr/src/OPLAPI.CPP:368-387 | a run after which the globals table and the module counts have a frame more than the chain |
| RuntimeRuns.LackOfMemoryLosesFrame | oplr/src/FRAME.CPP:149-175 | the same with every external defined |
| Runtime.COplRuntime.StopStep | oplr/src/EN_CTRL.CPP:28-31 | STOP is an error exactly while the flag is set, and otherwise ends the Execute with its frames as they are |
| RuntimeRuns.StopLosesFrame | oplr/src/OPLAPI.CPP:378-387 | a run in which STOP, after a nested callback, makes a callback lose its frame |
| RuntimeRuns.DestructorTakesLost | oplr/src/FRAME.CPP:199-210 | for every table: the destructor takes the entries of the lost frame, and the frame's own are still found |
| Runtime.COplRuntime.FinishCallback | oplr/src/OPLAPI.CPP:378-394 | the interrupted frame runs again; after an error the stack is where the last entry says |
| Runtime.COplRuntime.CallProcedure | oplr/src/OPLAPI.CPP:368-394 | callbacks to any depth: frame, code address and frames are as before; the result is on top, or after an error the stack is as before if and only if no entry was left behind inside, and too low otherwise; when a frame is lost at once, exactly, and by STOP only after another callback has ended |
| Runtime.COplRuntime.Callback | oplr/src/OPLAPI.CPP:301-394 | the same for the whole callback, from the name to the result; what entries are left |
| RuntimeRuns.FailedInitLeavesEntry | oplr/src/OPLAPI.CPP:301-394 | a run in which a nested callback fails to start, the stack does not go back, and an entry stays |
| Runtime.COplRuntime.LoadStep | oplr/src/MODULE.CPP:321-325 | LOADM succeeds exactly when the module is new, there is a slot and it can be read |
| Runtime.COplRuntime.UnloadStep | oplr/src/MODULE.CPP:327-331 | UNLOADM succeeds exactly when the module is listed, and leaves all frames alone |
| Runtime.COplRuntime.OnErrStep | oplr/src/EN_ERROR.CPP:139-146 | only the running frame's handler changes |
| Runtime.COplRuntime.Command | oplr/src/EN_ERROR.CPP:133-137 | after TRAP a failing command leaves with TRAP still set, for the error handler |
| Console.NormaliseTwice | oplr/src/CONSOLE.CPP:480-497 | a position that needed wrapping or scrolling no longer does afterwards |
| Console.DrawnStands | oplr/src/CONSOLE.CPP:625-637 | cell by cell: the text stands from the cursor on and no other cell has changed |
| Console.NormaliseMoves | oplr/src/CONSOLE.CPP:480-497 | a pending wrap or scroll, done: where the cursor is, and which row each row has become |
| Console.WrappedMoves | oplr/src/CONSOLE.CPP:499-513 | where the cursor goes past the right edge, for each of the locks |
| Console.ControlIsDone | oplr/src/CONSOLE.CPP:586-607 | each control character in terms of cursor and cells; the tab stop is the next of the columns 9, 17, 25 |
| Console.COplConsole.ScrollIfNeeded | oplr/src/CONSOLE.CPP:480-497 | ends, for all flags, with the cursor inside the window |
| Console.COplConsole.WrapIfNeeded | oplr/src/CONSOLE.CPP:499-513 | past the right edge the cursor goes to the next line or stays parked, as the flags say |
| Console.COplConsole.Scroll | oplr/src/CONSOLE.CPP:520-529 | one line up, the last line blank |
| Console.COplConsole.Lf | oplr/src/CONSOLE.CPP:467-471 | one line down after a pending wrap or scroll |
| Console.COplConsole.Tab | oplr/src/CONSOLE.CPP:473-478 | the next tab position, after a pending wrap or scroll |
| Console.COplConsole.At | oplr/src/CONSOLE.CPP:447-454 | accepts exactly the positions inside the window |
| Console.COplConsole.Cls | oplr/src/CONSOLE.CPP:430-435 | a blank screen with the cursor at the top left |
| Console.COplConsole.DoPrint | oplr/src/CONSOLE.CPP:625-631 | the run of characters stands at the normalised cursor, cell by cell; drawing it at once is printing the characters one by one |
| Console.COplConsole.Print | oplr/src/CONSOLE.CPP:566-623 | a text that fits the line stands at the normalised cursor afterwards, cell by cell, and a control character does what it is for; printing in chunks is printing character by character; the cursor stays in range, and past the right edge only parked on the last line |
| Console.DrawnInTwo | oplr/src/CONSOLE.CPP:625-631 | a run drawn in two parts is the run drawn at once |
| Console.PrintIsIndependentOfChunking | oplr/src/CONSOLE.CPP:566-623 | printing s and then t is printing s+t, under every combination of flags, up to a wrap or scroll that is still due |
| Database.PlanSeekLandsExactly | oplr/src/LB_DBASE.CPP:1249-1282 | the plan reaches the target if and only if it starts from an end, or from the right record number, or the end of the file stops it there |
| Database.PlanSeekIsShort | oplr/src/LB_DBASE.CPP:1249-1282 | from the right record number at most half the rows that way, rounded up |
| Database.ClampIsNearest | oplr/src/LB_DBASE.CPP:1245-1248 | the position asked for, or the nearest there is |
| Database.COplDbManager.PositionL | oplr/src/LB_DBASE.CPP:1240-1291 | the record number is the position clamped to 1..rows+1, and the cursor is there exactly under the condition of PlanSeekLandsExactly |
| Database.COplDbManager.BackL | oplr/src/LB_DBASE.CPP:1198-1211 | the record number follows the cursor one row back, not before the first |
| Database.COplDbManager.Erase | oplr/src/LB_DBASE.CPP:892-901 | removes exactly the current row, keeps the record number |
| Database.OneRowLess | oplr/src/LB_DBASE.CPP:892-901 | the rows before it stay where they are, those behind it move up by one |
| Database.COplDbManager.FindString | oplr/src/LB_DBASE.CPP:1569-1595 | the record number is that of the match, or the end |
| Database.COplDbManager.FindField | oplr/src/LB_DBASE.CPP:1602-1659 | the same in both directions, from either end or from here |
| Database.COplDbManager.PrepareForUpdate | oplr/src/LB_DBASE.CPP:931-946 | starts the edit on a copy of the current row once |
| Database.COplDbManager.Assign | oplr/src/LB_DBASE.CPP:948-990 | only the assigned column of the buffer changes; the two modes exclude each other |
| Database.COplDbManager.CancelIfUpdate | oplr/src/LB_DBASE.CPP:992-1008 | no edit and no mode afterwards, rows unchanged; which flags it leaves |
| Database.COplDbManager.AppendL | oplr/src/LB_DBASE.CPP:1122-1145 | the rows followed by the edited one, or the rows unchanged |
| Database.COplDbManager.UpdateCurrentRow | oplr/src/LB_DBASE.CPP:1147-1181 | a row updated in place moves to the end; a failed one leaves the copy there or not at all |
| Database.COplDbManager.UpdateL | oplr/src/LB_DBASE.CPP:1147-1181 | every error and its exact condition; the rows, the record number and the cursor in each case, also when the edited row was stored and the old one could not be taken away |
| Database.COplDbManager.PutL | oplr/src/LB_DBASE.CPP:1050-1061 | the row stored, and exactly when the record number is right afterwards |
| Database.AssignThenUpdate | oplr/src/LB_DBASE.CPP:1147-1181 | assignment and UPDATE turn the rows into those without the current one, followed by it with the column changed |
| Database.MovedTellsWhich | oplr/src/LB_DBASE.CPP:1147-1181 | which row an update moved can be read off the result |
| Database.COplDbManager.ModifyL | oplr/src/LB_DBASE.CPP:1024-1035 | refused exactly at the end or while another edit is open |
| Database.AssignThenUpdateAtEof | oplr/src/LB_DBASE.CPP:1147-1181 | at the end of the table, UPDATE removes the row of a stale bookmark |
| Database.EditLostAfterCancel | oplr/src/LB_DBASE.CPP:1083-1090 | a run in which CANCEL makes the next UPDATE lose its edit |
| Database.RecordNumberWrongAfterPut | oplr/src/LB_DBASE.CPP:1050-1061 | a run after which the record number is not the cursor |
| CheckedArithmetic.AddLong | oplr/src/EN_ARITH.CPP:16-29 | leaves if and only if the true sum is outside 32 bits |
| CheckedArithmetic.SubtractLong | oplr/src/EN_ARITH.CPP:40-53 | leaves if and only if the true difference is outside 32 bits |
| CheckedArithmetic.MultiplyL | oplr/src/OPLUTIL.CPP:270-288 | leaves if and only if the true product is out of range |
| CheckedArithmetic.ProductFits64 | oplr/src/OPLUTIL.CPP:278-288 | the 64 bit intermediate product is exact |
| CheckedArithmetic.NoFalseOverflow | oplr/src/LB_MATHS.CPP:80-125 | once a power is out of range, so is every higher one |
| CheckedArithmetic.PowerOf | oplr/src/LB_MATHS.CPP:80-125 | the exact power truncated towards zero, or a leave if and only if that is out of range |
| CheckedArithmetic.PowAdds | oplr/src/LB_MATHS.CPP:80-125 | the power to 0 is one, to 1 the number, and to a sum the product of the powers |
| CheckedArithmetic.TruncatedDrops | oplr/src/LB_MATHS.CPP:94-99 | division drops less than the divisor, with the sign of the dividend |
| Menus.COplMenu.AddMenuItemL | oplr/src/EN_MAIN.CPP:599-658 | leaves exactly when the key without its flags is none or no letter; the item comes first among those of the pane to come; its cascade is the first of that text, exactly when the text ends in > and there is one |
| Menus.HotKeyIgnoresFlags | oplr/src/EN_MAIN.CPP:614-628 | sign and flags do not change the key, which is the low byte and bit 10 |
| Menus.COplMenu.AddMenuTitleL | oplr/src/EN_MAIN.CPP:568-583 | the items so far become the pane of the title |
| Menus.COplMenu.RestorePane | oplr/src/EN_MAIN.CPP:810-821 | a pane shows exactly the items added for it |
| Menus.FlatSlice | oplr/src/EN_MAIN.CPP:810-821 | the offsets cut the array of items into the panes |

## Left out

- The opcode tables and the opcodes that only pop, compute and push: one step each in the run, with any value.
- The code address counts only where it is saved and restored; jumps set it freely.
- STOP inside EVAL, which ends the nested run with no value and leaves its frames: the run is not followed.
- Heap size limit and debugger hooks of a frame; the limit is one more reason for a failed allocation.
- The error texts, which also decide whether externals behind an undefined one are still looked up when the text is full.
- Deletion of a module's code is the ghost flag `freed`; file names are taken as already parsed and folded.
- Upper-casing of a called name is done by the locale; the folded name is a parameter.
- A native procedure that goes on after a callback whose stack was taken back too little: its operands are then not what it thinks, and the run is not followed.
- The end of a string procedure without RETURN as the last frame of a callback, where the source uses the frame it has just removed: not offered.
- Runtime.COplRuntime.Execute: does not follow a run past a frame that a callback left behind, because the table of globals then no longer matches the frames; the event it consumes at its end is modelled in the event loop alone.
- Stack.CStack.PushInt16: the debug build also asserts that the pointer is above iBase; the model asks only for room in the cell, because the other builds do.
- UPPER$ and LOWER$, which change the popped text in place; real numbers are eight opaque bytes.
- EventHandler.CWsEventHandler.WaitForEvent: follows a script of any length, because nothing makes an awaited event ever come.
- The conversion of 16 and 32 bit status words, the kill key, focus events, and the event data copied out.
- The priorities of the additional sources and of the active scheduler come from the platform and are parameters or constants of that order.
- Console: the line editor, fonts, cursor drawing and changes of the window size.
- Database: the engine behind the rows, searching by text, transactions, GOTOMARK, CancelAllUpdates for other logical names, and failures while an edit is started.
- CheckedArithmetic: division of the smallest integer and the unary minus of it, which the source does not check.
- Menus: the flags of an item, what the locale counts as a letter, bitmaps, pop-ups, and the search for a main pane on Series 60.
