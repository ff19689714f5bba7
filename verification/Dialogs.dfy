/** The active scheduler of the runtime and its signal buffer. While a dialog or
    menu runs, at any depth of nesting, the application framework's own loop
    takes signals off the thread semaphore, those of OPL requests among them;
    the buffer counts the latter so that they can be raised again. */
module Dialogs {
  import opened Kernel
  import opened EventQueue
  import opened EventSources
  import opened Wrappers
  import opened Scenes
  import opened EventHandler

  datatype Mode = EModeCone | EModeOpl

  class COplActiveScheduler {
    const iHandler: CWsEventHandler
    var iConemodeNestCount: nat
    var iMode: Mode
    var iSignalBufferIsActive: bool
    var iNumberOfBufferedSignals: nat

    constructor (aHandler: CWsEventHandler)
      requires aHandler.Settled() && aHandler.iStatus != NotRequested && aHandler.iExpiryTimerActive
      ensures iHandler == aHandler && Valid() && iConemodeNestCount == 0
    {
      iHandler := aHandler;
      iConemodeNestCount, iMode, iSignalBufferIsActive, iNumberOfBufferedSignals := 0, EModeOpl, false, 0;
    }

    /** What holds after any sequence of starts, stops and turns. */
    ghost predicate Valid()
      reads this, iHandler, iHandler.iThread, iHandler.iEventQueue, iHandler.iIOCollection
    {
      && iHandler.Inv() && iHandler.iEventQueue.BackupIsEmpty()
      && iHandler.Balance() + iNumberOfBufferedSignals == 0
      && (iMode == EModeCone <==> iConemodeNestCount > 0)
      && (iHandler.iStatus == NotRequested <==> iConemodeNestCount > 0)
      && (iSignalBufferIsActive <==> iConemodeNestCount > 0)
      && (iHandler.iExpiryTimerActive <==> iConemodeNestCount == 0)
      && (iConemodeNestCount > 0 ==> !iHandler.iExpiryTimerReady && iHandler.iEventQueue.iQueue == [])
      && (iConemodeNestCount == 0 ==> iNumberOfBufferedSignals == 0)
    }

    /** Empties the queue and stops its timer, taking the signals of what goes. */
    method EmptyQueue()
      requires iHandler.Settled()
      modifies iHandler`iExpiryTimerActive, iHandler`iExpiryTimerReady, iHandler.iThread, iHandler.iEventQueue
      ensures iHandler.Settled() && iHandler.iEventQueue.iQueue == []
      ensures !iHandler.iExpiryTimerActive && !iHandler.iExpiryTimerReady
      ensures iHandler.WakeUps() == old(iHandler.WakeUps())
    {
      iHandler.NothingOwedIsNegative();
      var queue := iHandler.iEventQueue;
      assert queue.Owed() >= 0 && queue.iThread == iHandler.iThread;
      hide CEventQueue.Valid;
      queue.PrepareToStartActiveScheduler();
      if iHandler.iExpiryTimerReady {
        iHandler.iThread.WaitForAnyRequest();
        iHandler.iExpiryTimerReady := false;
      }
      iHandler.iExpiryTimerActive := false;
    }

    /** Cancels the request for the next window server event. */
    method EventReadyCancel()
      requires iHandler.Settled() && iHandler.iStatus != NotRequested
      modifies iHandler`iStatus, iHandler.iThread
      ensures iHandler.Settled() && iHandler.iStatus == NotRequested
    {
      iHandler.NothingOwedIsNegative();
      hide CEventQueue.Valid;
      if iHandler.iStatus == Pending {
        iHandler.iStatus := Cancelled;
        iHandler.iThread.Signal(1);
      }
      iHandler.iThread.WaitForAnyRequest();
      iHandler.iStatus := NotRequested;
    }

    method PrepareToStartActiveScheduler()
      requires Valid()
      modifies this, iHandler`iStatus, iHandler`iExpiryTimerActive, iHandler`iExpiryTimerReady
      modifies iHandler.iThread, iHandler.iEventQueue
      ensures Valid() && iConemodeNestCount == old(iConemodeNestCount) + 1
      ensures iNumberOfBufferedSignals == old(iNumberOfBufferedSignals)
      ensures iHandler.WakeUps() == old(iHandler.WakeUps())
    {
      hide CEventQueue.Valid;
      iConemodeNestCount := iConemodeNestCount + 1;
      if iConemodeNestCount == 1 {
        iMode := EModeCone;
        EmptyQueue();
        EventReadyCancel();
        iSignalBufferIsActive := true;
      }
    }

    /** A turn of the framework's loop, if the semaphore lets it run: an active
        object that is ready runs, or the signal is a stray one. */
    method Turn()
      requires Valid() && iConemodeNestCount > 0
      modifies this`iNumberOfBufferedSignals, iHandler`iForeignReady, iHandler`iPriorityKeyReady, iHandler.iThread
      ensures Valid()
      ensures iHandler.WakeUps() == old(iHandler.WakeUps())
      ensures iNumberOfBufferedSignals > old(iNumberOfBufferedSignals) ==>
        && iHandler.iForeignReady == [] && !iHandler.iPriorityKeyReady
        && iNumberOfBufferedSignals <= iHandler.WakeUps()
    {
      iHandler.NothingOwedIsNegative();
      hide CEventQueue.Valid;
      if iHandler.iThread.iSemaphore == 0 {
        return;
      }
      iHandler.iThread.WaitForAnyRequest();
      if iHandler.iPriorityKeyReady {
        iHandler.iPriorityKeyReady := false;
      } else if iHandler.iForeignReady != [] {
        iHandler.iForeignReady := iHandler.iForeignReady[1..];
      } else {
        iNumberOfBufferedSignals := iNumberOfBufferedSignals + 1;
      }
    }

    /** Anything may complete, at any depth: a request of the program is one more
        wake-up, and while a dialog is up neither the program's window server
        request nor the expiry timer can, for neither is running. */
    method Completes(c: Completion)
      requires Valid()
      modifies iHandler`iStatus, iHandler`iPriorityKeyReady, iHandler`iExpiryTimerReady, iHandler`iForeignReady
      modifies iHandler`arrived, iHandler.iThread, iHandler.iIOCollection`iRequestArray
      ensures Valid()
      ensures var rs := old(iHandler.iIOCollection.iRequestArray);
              iHandler.WakeUps() == old(iHandler.WakeUps())
                + Bit(c.RequestCompletes? && c.request < |rs| && !rs[c.request].completed)
      ensures iConemodeNestCount > 0 ==> iHandler.iStatus == NotRequested && !iHandler.iExpiryTimerReady
      ensures iHandler.iForeignReady == old(iHandler.iForeignReady) + if c.ObjectIsReady? then [c.priority] else []
      ensures iHandler.iPriorityKeyReady == (old(iHandler.iPriorityKeyReady) || c.PriorityKeyArrives?)
    {
      hide CEventQueue.Valid;
      iHandler.Completes(c);
    }

    method NotifyActiveSchedulerStopped()
      requires Valid() && iConemodeNestCount > 0
      modifies this, iHandler`iStatus, iHandler`iExpiryTimerActive, iHandler.iThread
      ensures Valid() && iConemodeNestCount == old(iConemodeNestCount) - 1
      ensures iConemodeNestCount == 0 ==>
        && iHandler.Settled()
        && iHandler.iThread.iSemaphore == old(iHandler.iThread.iSemaphore) + old(iNumberOfBufferedSignals)
      ensures iConemodeNestCount > 0 ==> iNumberOfBufferedSignals == old(iNumberOfBufferedSignals)
      ensures iHandler.WakeUps() == old(iHandler.WakeUps())
    {
      hide CEventQueue.Valid;
      iConemodeNestCount := iConemodeNestCount - 1;
      if iConemodeNestCount == 0 {
        iMode := EModeOpl;
        iHandler.iExpiryTimerActive := true;
        iHandler.iStatus := Pending;
        StopBufferingAndReplaceAnyBufferedSignals();
      }
    }

    /** The buffer has no signal of its own, so one is raised for Cancel to take. */
    method StopBufferingAndReplaceAnyBufferedSignals()
      requires iSignalBufferIsActive
      modifies this`iSignalBufferIsActive, this`iNumberOfBufferedSignals, iHandler.iThread
      ensures !iSignalBufferIsActive && iNumberOfBufferedSignals == 0
      ensures iHandler.iThread.iSemaphore == old(iHandler.iThread.iSemaphore) + old(iNumberOfBufferedSignals)
    {
      iHandler.iThread.Signal(1);
      iHandler.iThread.WaitForAnyRequest();
      iSignalBufferIsActive := false;
      iHandler.iThread.Signal(iNumberOfBufferedSignals);
      iNumberOfBufferedSignals := 0;
    }
  }
}
