/** What a wait can be woken by, and the order in which the sources that are
    ready are offered the event. */
module EventSources {
  import opened Kernel
  import opened EventQueue
  import opened Wrappers

  type TInt = x: int | -0x8000_0000 <= x < 0x8000_0000
  const KMinTInt: TInt := -0x8000_0000
  // Priorities of Symbian's TActivePriority; the expiry timer of the event
  // queue is a CTimer of default priority.
  const EActivePriorityWsEvents: TInt := 100
  const EActivePriorityDefault: TInt := 0

  // ------------------------------------------------------------------ dispatch

  datatype OfferFunction = ToUserEventHandler | ToOplRequest | ToAdditionalSources | Final

  datatype Handler = Handler(priority: TInt, offer: OfferFunction)

  const FinalHandler := Handler(KMinTInt, Final)
  const UserHandler := Handler(EActivePriorityWsEvents, ToUserEventHandler)

  /** The decision tree over the priorities of the best completed additional
      source and the best completed OPL request. */
  function SetUpArrayOfEventHandlers(source: Option<TInt>, request: Option<TInt>): (r: seq<Handler>)
    ensures |r| == 4
  {
    if source.None? then
      if request.None? then
        [UserHandler, FinalHandler, FinalHandler, FinalHandler]
      else
        var q := Handler(request.value, ToOplRequest);
        if request.value > EActivePriorityWsEvents then
          [q, UserHandler, FinalHandler, FinalHandler]
        else
          [UserHandler, q, FinalHandler, FinalHandler]
    else
      var s := Handler(source.value, ToAdditionalSources);
      if request.None? then
        if source.value > EActivePriorityWsEvents then
          [s, UserHandler, FinalHandler, FinalHandler]
        else
          [UserHandler, s, FinalHandler, FinalHandler]
      else
        var q := Handler(request.value, ToOplRequest);
        if source.value > request.value then
          if EActivePriorityWsEvents > source.value then
            [UserHandler, s, q, FinalHandler]
          else if request.value > EActivePriorityWsEvents then
            [s, q, UserHandler, FinalHandler]
          else
            [s, UserHandler, q, FinalHandler]
        else
          if EActivePriorityWsEvents > request.value then
            [UserHandler, q, s, FinalHandler]
          else if source.value > EActivePriorityWsEvents then
            [q, s, UserHandler, FinalHandler]
          else
            [q, UserHandler, s, FinalHandler]
  }

  /** How many handlers have something to do. */
  function Count(source: Option<TInt>, request: Option<TInt>): (n: nat)
    ensures 1 <= n <= 3
  {
    1 + (if source.Some? then 1 else 0) + (if request.Some? then 1 else 0)
  }

  /** How often a handler is in the array. */
  function Times(hs: seq<Handler>, h: Handler): (n: nat)
    requires |hs| == 4
  {
    (if hs[0] == h then 1 else 0) + (if hs[1] == h then 1 else 0) + (if hs[2] == h then 1 else 0) + (if hs[3] == h then 1 else 0)
  }

  /** The user handler and every source that is ready appear exactly once, all of
      them before the final handlers, which fill the array up: nothing else is
      there. */
  lemma {:induction false} HandlersAreThosePresent(source: Option<TInt>, request: Option<TInt>)
    ensures var hs := SetUpArrayOfEventHandlers(source, request);
            && Times(hs, UserHandler) == 1
            && (source.Some? ==> Times(hs, Handler(source.value, ToAdditionalSources)) == 1)
            && (request.Some? ==> Times(hs, Handler(request.value, ToOplRequest)) == 1)
            && Times(hs, FinalHandler) == 4 - Count(source, request)
            && (forall i :: Count(source, request) <= i < 4 ==> hs[i] == FinalHandler)
  {
  }

  /** They are offered the event in non-increasing order of priority. */
  lemma {:induction false} HandlersArePriorityOrdered(source: Option<TInt>, request: Option<TInt>)
    ensures var hs := SetUpArrayOfEventHandlers(source, request);
            hs[0].priority >= hs[1].priority >= hs[2].priority >= hs[3].priority
  {
  }

  /** The first handler is never a final one and has at least the user
      handler's priority; a handler is there only for a source that is ready;
      and behind the user handler, a final one means that nothing is. */
  lemma {:induction false} FirstTwoHandlers(source: Option<TInt>, request: Option<TInt>)
    ensures var hs := SetUpArrayOfEventHandlers(source, request);
            && hs[0].priority >= EActivePriorityWsEvents && hs[0].offer != Final
            && (forall i :: 0 <= i < 4 && hs[i].offer == ToOplRequest ==> request.Some?)
            && (forall i :: 0 <= i < 4 && hs[i].offer == ToAdditionalSources ==> source.Some?)
            && (hs[0].offer == ToUserEventHandler ==> hs[1].offer != ToUserEventHandler)
            && (hs[0].offer == ToUserEventHandler && hs[1].offer == Final ==>
                  hs[1].priority == KMinTInt && source.None? && request.None?)
  {
  }

  // ------------------------------------------- requests of the OPL program

  /** An asynchronous request made by the OPL program, and the address of the
      status word that it polls. */
  datatype Request = Request(priority: TInt, word: int, completed: bool, hasHandledCompletion: bool)

  function Completed(rs: seq<Request>): (n: nat)
    ensures n <= |rs|
  {
    if rs == [] then 0 else Completed(rs[..|rs| - 1]) + (if rs[|rs| - 1].completed then 1 else 0)
  }

  lemma {:induction false} CompletedUpdate(rs: seq<Request>, i: nat, r: Request)
    requires i < |rs|
    ensures Completed(rs[i := r])
         == Completed(rs) + (if r.completed then 1 else 0) - (if rs[i].completed then 1 else 0)
  {
    var n := |rs| - 1;
    if i == n {
      assert rs[i := r][..n] == rs[..n];
    } else {
      assert rs[i := r][..n] == rs[..n][i := r];
      CompletedUpdate(rs[..n], i, r);
    }
  }

  lemma {:induction false} CompletedConcat(a: seq<Request>, b: seq<Request>)
    ensures Completed(a + b) == Completed(a) + Completed(b)
  {
    if b == [] {
      assert a + b == a;
    } else {
      assert (a + b)[..|a + b| - 1] == a + b[..|b| - 1];
      CompletedConcat(a, b[..|b| - 1]);
    }
  }

  lemma {:induction false} CompletedRemove(rs: seq<Request>, i: nat)
    requires i < |rs|
    ensures Completed(Remove(rs, i)) == Completed(rs) - (if rs[i].completed then 1 else 0)
  {
    CompletedConcat(rs[..i], rs[i + 1..]);
    CompletedConcat(rs[..i], [rs[i]] + rs[i + 1..]);
    CompletedConcat([rs[i]], rs[i + 1..]);
    assert rs == rs[..i] + ([rs[i]] + rs[i + 1..]);
    assert [rs[i]][..0] == [];
  }

  lemma {:induction false} CompletedNone(rs: seq<Request>)
    ensures Completed(rs) == 0 <==> forall i :: 0 <= i < |rs| ==> !rs[i].completed
  {
    if rs != [] {
      CompletedNone(rs[..|rs| - 1]);
    }
  }

  /** The completed request that is offered a signal. */
  function BestRequest(rs: seq<Request>): (best: Option<nat>)
    ensures best.Some? ==> best.value < |rs| && rs[best.value].completed
  {
    if rs == [] then None
    else
      var n := |rs| - 1;
      var b := BestRequest(rs[..n]);
      if rs[n].completed && (b.None? || rs[b.value].priority < rs[n].priority) then Some(n) else b
  }

  /** Of those with the highest priority, it is the first. */
  lemma {:induction false} BestRequestIsFirstOfHighest(rs: seq<Request>)
    ensures var best := BestRequest(rs);
            && (best.None? <==> Completed(rs) == 0)
            && (best.None? <==> forall k :: 0 <= k < |rs| ==> !rs[k].completed)
            && (best.Some? ==>
                  forall k :: 0 <= k < |rs| && rs[k].completed ==>
                    && rs[k].priority <= rs[best.value].priority
                    && (k < best.value ==> rs[k].priority < rs[best.value].priority))
  {
    if rs != [] {
      var n := |rs| - 1;
      BestRequestIsFirstOfHighest(rs[..n]);
      assert forall k :: 0 <= k < n ==> rs[k] == rs[..n][k];
    }
  }

  /** Every completion has been noted in its status word. */
  function Noted(rs: seq<Request>): (r: seq<Request>)
    ensures |r| == |rs|
  {
    seq(|rs|, k requires 0 <= k < |rs| =>
      rs[k].(hasHandledCompletion := rs[k].hasHandledCompletion || rs[k].completed))
  }

  /** Noting changes neither what is completed nor which request comes first. */
  lemma {:induction false} NotedKeeps(rs: seq<Request>)
    ensures Completed(Noted(rs)) == Completed(rs)
    ensures BestRequest(Noted(rs)) == BestRequest(rs)
    ensures Noted(Noted(rs)) == Noted(rs)
  {
    if rs != [] {
      var n := |rs| - 1;
      assert Noted(rs)[..n] == Noted(rs[..n]);
      NotedKeeps(rs[..n]);
    }
  }

  class CIOCollection {
    var iRequestArray: seq<Request>
    // addresses of the status words that still hold the "pending" value
    var iPendingWords: set<int>

    constructor ()
      ensures iRequestArray == [] && iPendingWords == {}
    {
      iRequestArray, iPendingWords := [], {};
    }

    /** Writes the status word of every request that has completed, once, and
        finds the completed request of highest priority. */
    method HandleAnyCompletedOplAsynchronousRequests() returns (best: Option<nat>)
      modifies this
      ensures iRequestArray == Noted(old(iRequestArray))
      ensures Completed(iRequestArray) == Completed(old(iRequestArray))
      ensures iPendingWords <= old(iPendingWords)
      ensures forall k :: 0 <= k < |iRequestArray| && iRequestArray[k].completed && !old(iRequestArray)[k].hasHandledCompletion
                ==> iRequestArray[k].word !in iPendingWords
      ensures best == BestRequest(iRequestArray)
    {
      hide Completed, BestRequest;
      best := None;
      var highestPriority: TInt := KMinTInt;
      var i := |iRequestArray| - 1;
      ghost var rs0 := iRequestArray;
      while i >= 0
        invariant -1 <= i < |rs0| && |iRequestArray| == |rs0|
        invariant forall k :: 0 <= k <= i ==> iRequestArray[k] == rs0[k]
        invariant forall k :: i < k < |rs0| ==>
          iRequestArray[k] == rs0[k].(hasHandledCompletion := rs0[k].hasHandledCompletion || rs0[k].completed)
        invariant iPendingWords <= old(iPendingWords)
        invariant forall k :: i < k < |rs0| && rs0[k].completed && !rs0[k].hasHandledCompletion ==> rs0[k].word !in iPendingWords
        invariant best.None? ==> highestPriority == KMinTInt && forall k :: i < k < |rs0| ==> !rs0[k].completed
        invariant best.Some? ==>
          && i < best.value < |rs0| && rs0[best.value].completed && rs0[best.value].priority == highestPriority
          && forall k :: i < k < |rs0| && rs0[k].completed ==>
               && rs0[k].priority <= highestPriority
               && (k < best.value ==> rs0[k].priority < highestPriority)
      {
        var request := iRequestArray[i];
        if request.completed {
          if !request.hasHandledCompletion {
            iPendingWords := iPendingWords - {request.word};
            iRequestArray := iRequestArray[i := request.(hasHandledCompletion := true)];
          }
          if highestPriority <= request.priority {
            best, highestPriority := Some(i), request.priority;
          }
        }
        i := i - 1;
      }
      assert iRequestArray == Noted(rs0);
      NotedKeeps(rs0);
      BestRequestIsFirstOfHighest(iRequestArray);
    }

    method RemoveCompletedOplAsynchronousRequest(aRequest: nat)
      requires aRequest < |iRequestArray| && iRequestArray[aRequest].completed
      modifies this`iRequestArray
      ensures iRequestArray == Remove(old(iRequestArray), aRequest)
      ensures Completed(iRequestArray) == Completed(old(iRequestArray)) - 1
    {
      CompletedRemove(iRequestArray, aRequest);
      iRequestArray := Remove(iRequestArray, aRequest);
    }
  }

  // ------------------------------------------------ additional event sources

  datatype Source = Source(priority: TInt, completed: bool, consumed: bool)

  function Unconsumed(ss: seq<Source>): (n: nat)
    ensures n <= |ss|
  {
    if ss == [] then 0
    else Unconsumed(ss[..|ss| - 1]) + (if ss[|ss| - 1].completed && !ss[|ss| - 1].consumed then 1 else 0)
  }

  lemma {:induction false} UnconsumedUpdate(ss: seq<Source>, i: nat, s: Source)
    requires i < |ss|
    ensures Unconsumed(ss[i := s])
         == Unconsumed(ss) + (if s.completed && !s.consumed then 1 else 0)
          - (if ss[i].completed && !ss[i].consumed then 1 else 0)
  {
    var n := |ss| - 1;
    if i == n {
      assert ss[i := s][..n] == ss[..n];
    } else {
      assert ss[i := s][..n] == ss[..n][i := s];
      UnconsumedUpdate(ss[..n], i, s);
    }
  }

  lemma {:induction false} UnconsumedNone(ss: seq<Source>)
    ensures Unconsumed(ss) == 0 <==> forall i :: 0 <= i < |ss| ==> ss[i].completed ==> ss[i].consumed
  {
    if ss != [] {
      UnconsumedNone(ss[..|ss| - 1]);
    }
  }

  /** The source that is offered a signal. */
  function BestSource(ss: seq<Source>): (best: Option<nat>)
    ensures best.Some? ==> best.value < |ss| && ss[best.value].completed && !ss[best.value].consumed
  {
    if ss == [] then None
    else
      var n := |ss| - 1;
      var b := BestSource(ss[..n]);
      if ss[n].completed && !ss[n].consumed && (b.None? || ss[b.value].priority <= ss[n].priority) then Some(n) else b
  }

  /** Of those with the highest priority, it is the last. */
  lemma {:induction false} BestSourceIsLastOfHighest(ss: seq<Source>)
    ensures var best := BestSource(ss);
            && (best.None? <==> Unconsumed(ss) == 0)
            && (best.None? <==> forall k :: 0 <= k < |ss| ==> ss[k].completed ==> ss[k].consumed)
            && (best.Some? ==>
                  forall k :: 0 <= k < |ss| && ss[k].completed && !ss[k].consumed ==>
                    && ss[k].priority <= ss[best.value].priority
                    && (k > best.value ==> ss[k].priority < ss[best.value].priority))
  {
    if ss != [] {
      var n := |ss| - 1;
      BestSourceIsLastOfHighest(ss[..n]);
      assert forall k :: 0 <= k < n ==> ss[k] == ss[..n][k];
    }
  }

  class TArrayOfAdditionalEventSources {
    var iSources: seq<Source>

    constructor (aPriorities: seq<TInt>)
      ensures |iSources| == |aPriorities|
      ensures forall k :: 0 <= k < |iSources| ==> iSources[k] == Source(aPriorities[k], false, false)
    {
      iSources := seq(|aPriorities|, k requires 0 <= k < |aPriorities| => Source(aPriorities[k], false, false));
    }

    /** Only what has completed can have been consumed. */
    ghost predicate Valid()
      reads this
    {
      forall k :: 0 <= k < |iSources| ==> iSources[k].consumed ==> iSources[k].completed
    }

    predicate AtLeastOneHasCompletedAndBeenConsumed()
      reads this
    {
      exists k :: 0 <= k < |iSources| && iSources[k].consumed
    }

    method CompletedAdditionalEventSourceWithHighestPriority() returns (best: Option<nat>)
      ensures best == BestSource(iSources)
    {
      best := None;
      var i := |iSources| - 1;
      while i >= 0
        invariant -1 <= i < |iSources|
        invariant best.None? ==> forall k :: i < k < |iSources| ==> iSources[k].completed ==> iSources[k].consumed
        invariant best.Some? ==>
          && i < best.value < |iSources| && iSources[best.value].completed && !iSources[best.value].consumed
          && forall k :: i < k < |iSources| && iSources[k].completed && !iSources[k].consumed ==>
               && iSources[k].priority <= iSources[best.value].priority
               && (k > best.value ==> iSources[k].priority < iSources[best.value].priority)
      {
        var eventSource := iSources[i];
        if eventSource.completed && !eventSource.consumed {
          if best.None? || eventSource.priority > iSources[best.value].priority {
            best := Some(i);
          }
        }
        i := i - 1;
      }
      BestSourceIsLastOfHighest(iSources);
    }

    /** Cancels whatever has not been consumed and takes its signal. A wait for
        a request that has completed still needs a signal; `blocked` says that
        there was none left. */
    method CancelAll(thread: Thread) returns (blocked: bool)
      requires Valid()
      modifies this, thread
      ensures Valid()
      ensures thread.iSemaphore - Unconsumed(iSources) == old(thread.iSemaphore - Unconsumed(iSources))
      ensures |iSources| == |old(iSources)|
      ensures blocked <==> old(thread.iSemaphore) < old(Unconsumed(iSources))
      ensures blocked ==> thread.iSemaphore == 0
      ensures !blocked ==> Unconsumed(iSources) == 0
    {
      var i := |iSources| - 1;
      while i >= 0
        invariant -1 <= i < |iSources| == |old(iSources)|
        invariant Valid()
        invariant thread.iSemaphore - Unconsumed(iSources) == old(thread.iSemaphore - Unconsumed(iSources))
        invariant forall k :: i < k < |iSources| ==> iSources[k].consumed
      {
        if !iSources[i].consumed {
          if !iSources[i].completed {
            UnconsumedUpdate(iSources, i, iSources[i].(completed := true));
            iSources := iSources[i := iSources[i].(completed := true)];
            thread.Signal(1);
          }
          if thread.iSemaphore == 0 {
            UnconsumedNone(iSources);
            return true;
          }
          thread.WaitForAnyRequest();
          MarkAsConsumed(i);
        }
        i := i - 1;
      }
      UnconsumedNone(iSources);
      return false;
    }

    method MarkAsConsumed(aIndex: nat)
      requires Valid() && aIndex < |iSources| && iSources[aIndex].completed && !iSources[aIndex].consumed
      modifies this
      ensures Valid()
      ensures iSources == old(iSources)[aIndex := old(iSources)[aIndex].(consumed := true)]
      ensures Unconsumed(iSources) == Unconsumed(old(iSources)) - 1
    {
      UnconsumedUpdate(iSources, aIndex, iSources[aIndex].(consumed := true));
      iSources := iSources[aIndex := iSources[aIndex].(consumed := true)];
    }
  }
}
