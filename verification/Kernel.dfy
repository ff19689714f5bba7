/** The part of the operating system the runtime's event loop leans on: the
    counting semaphore of its own thread. Every asynchronous completion raises
    it by one and every wait lowers it by one. */
module Kernel {

  class Thread {
    var iSemaphore: nat

    constructor ()
      ensures iSemaphore == 0
    {
      iSemaphore := 0;
    }

    /** Completes `aNumberOfSignals` throw-away requests. */
    method Signal(aNumberOfSignals: nat)
      modifies this
      ensures iSemaphore == old(iSemaphore) + aNumberOfSignals
    {
      var i := 0;
      while i < aNumberOfSignals
        invariant i <= aNumberOfSignals
        invariant iSemaphore == old(iSemaphore) + i
      {
        iSemaphore := iSemaphore + 1;
        i := i + 1;
      }
    }

    /** A wait that the source annotates with "returns straightaway": the
        precondition is that annotation, so every call of it is a proof that
        the thread does not block there. */
    method WaitForAnyRequest()
      requires iSemaphore > 0
      modifies this
      ensures iSemaphore == old(iSemaphore) - 1
    {
      iSemaphore := iSemaphore - 1;
    }
  }
}
