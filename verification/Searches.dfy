/** Looking for an event in the queue without waiting for one. */
module Searches {
  import opened EventQueue
  import opened Scenes
  import opened Wrappers

  predicate NoneMatchesBefore(q: seq<Event>, n: nat, user: UserEvents) {
    forall i :: 0 <= i < n && i < |q| ==> !Matches(user, q[i])
  }

  predicate NoneMatches(q: seq<Event>, user: UserEvents) {
    NoneMatchesBefore(q, |q|, user)
  }

  /** The first event that is asked for, or the end of the queue. */
  function FirstMatch(q: seq<Event>, user: UserEvents): (k: nat)
    ensures k <= |q| && NoneMatchesBefore(q, k, user) && (k < |q| ==> Matches(user, q[k]))
  {
    if q == [] || Matches(user, q[0]) then 0 else 1 + FirstMatch(q[1..], user)
  }

  /** What a search answers, and the queue afterwards. */
  predicate Searched(q: seq<Event>, wanted: bool, user: UserEvents, found: bool, event: Event, after: seq<Event>) {
    var k := FirstMatch(q, user);
    && found == (k < |q|) && (found ==> event == q[k])
    && after == if found && wanted then Remove(q, k) else q
  }

  /** What a search is made among: one that takes a key drops everything else. */
  function Offered(q: seq<Event>, wanted: bool, user: UserEvents): seq<Event> {
    if user == UserEventsKeysOnly && wanted then KeysOf(q) else q
  }

  // ------------------------------------------- with a KEYA or GETEVENTA first

  predicate NoneCompletes(p: Program, q: seq<Event>) {
    forall i :: 0 <= i < |q| ==> !CompletesKeyRequest(p, q[i])
  }

  /** The first event for the key request or of the kind asked for, or the end of
      the queue. */
  function FirstTaken(p: Program, q: seq<Event>, user: UserEvents): (k: nat)
    ensures k <= |q| && forall i :: 0 <= i < k ==> !CompletesKeyRequest(p, q[i]) && !Matches(user, q[i])
    ensures k < |q| ==> CompletesKeyRequest(p, q[k]) || Matches(user, q[k])
  {
    if q == [] || CompletesKeyRequest(p, q[0]) || Matches(user, q[0]) then 0 else 1 + FirstTaken(p, q[1..], user)
  }

  /** What a search answers when a key request may be outstanding: if the first
      event for either is one for the request it completes that, and the search
      goes on without it. */
  ghost predicate Looked(p: Program, q: seq<Event>, wanted: bool, user: UserEvents, found: bool, event: Event,
                         after: seq<Event>, p1: Program) {
    var j := FirstTaken(p, q, user);
    if j < |q| && CompletesKeyRequest(p, q[j]) then
      p1 == KeyRequestCompleted(p) && Searched(Remove(q, j), wanted, user, found, event, after)
    else p1 == p && Searched(q, wanted, user, found, event, after)
  }

  lemma {:induction false} FirstTakenIs(p: Program, q: seq<Event>, user: UserEvents, n: nat)
    requires n <= |q| && forall i :: 0 <= i < n ==> !CompletesKeyRequest(p, q[i]) && !Matches(user, q[i])
    requires n < |q| ==> CompletesKeyRequest(p, q[n]) || Matches(user, q[n])
    ensures FirstTaken(p, q, user) == n
  {
    var k := FirstTaken(p, q, user);
    hide Matches, CompletesKeyRequest, FirstTaken;
    assert k == n;
  }

  lemma {:induction false} FirstMatchIs(q: seq<Event>, user: UserEvents, n: nat)
    requires n <= |q| && NoneMatchesBefore(q, n, user) && (n < |q| ==> Matches(user, q[n]))
    ensures FirstMatch(q, user) == n
  {
    var k := FirstMatch(q, user);
    hide Matches, FirstMatch;
    assert k == n;
  }

  /** A search that finds nothing leaves all but what completed the request. */
  lemma {:induction false} NothingLooked(p: Program, q: seq<Event>, wanted: bool, user: UserEvents, e: Event,
                                         left: seq<Event>, p1: Program)
    requires Looked(p, q, wanted, user, false, e, left, p1)
    ensures NoneMatches(left, user) && NoneCompletes(p1, left)
    ensures p1 == p ==> left == q
    ensures p1 != p ==> p.statPtr.Some? && p1.statPtr.None?
  {
    hide Matches, FirstMatch;
    if p.statPtr.Some? {
      assert KeyRequestCompleted(p) != p;
    }
  }

  lemma {:induction false} RequestGone(p: Program, q: seq<Event>, wanted: bool, user: UserEvents, e: Event,
                                       left: seq<Event>, p1: Program)
    requires Looked(p, q, wanted, user, false, e, left, p1) && p1 != p
    ensures var j := FirstTaken(p, q, user);
            j < |q| && CompletesKeyRequest(p, q[j]) && left == Remove(q, j) && p1 == KeyRequestCompleted(p)
    ensures p1.statPtr.None?
  {
    hide Matches, FirstTaken, FirstMatch;
  }

  lemma {:induction false} RemoveThenMore(q: seq<Event>, j: nat, more: seq<Event>)
    requires j < |q|
    ensures Remove(q + more, j) == Remove(q, j) + more
  {
  }

  /** A search that finds nothing, and another of what it left and of more events,
      are together one search of all the events. */
  lemma {:induction false} LookedOn(p: Program, q: seq<Event>, wanted: bool, user: UserEvents, e: Event,
                                    left: seq<Event>, p1: Program, more: seq<Event>,
                                    found: bool, event: Event, after: seq<Event>, p2: Program)
    requires Looked(p, q, wanted, user, false, e, left, p1)
    requires Looked(p1, left + more, wanted, user, found, event, after, p2)
    ensures Looked(p, q + more, wanted, user, found, event, after, p2)
  {
    NothingLooked(p, q, wanted, user, e, left, p1);
    hide Matches, FirstTaken, Searched, KeyRequestCompleted;
    if p1 != p {
      RequestGone(p, q, wanted, user, e, left, p1);
      var j := FirstTaken(p, q, user);
      FirstTakenIs(p, q + more, user, j);
      RemoveThenMore(q, j, more);
    }
  }

  /** What a search means without a key request: it finds the first event asked
      for, if there is any, and takes it exactly if it is wanted. */
  lemma {:induction false} LookedMeans(p: Program, q: seq<Event>, wanted: bool, user: UserEvents, found: bool, event: Event,
                                       after: seq<Event>, p1: Program)
    requires Looked(p, q, wanted, user, found, event, after, p1) && p.statPtr.None?
    ensures p1 == p && (found <==> exists i :: 0 <= i < |q| && Matches(user, q[i]))
    ensures found ==> exists k :: 0 <= k < |q| && IsFirst(q, user, k) && event == q[k]
                                  && after == if wanted then q[..k] + q[k + 1..] else q
    ensures !found ==> after == q
  {
    var k := FirstMatch(q, user);
    if found {
      assert IsFirst(q, user, k);
    }
  }

  predicate IsFirst(q: seq<Event>, user: UserEvents, k: nat) {
    k < |q| && Matches(user, q[k]) && forall i :: 0 <= i < k ==> !Matches(user, q[i])
  }

  lemma {:induction false} RemoveKeeps(q: seq<Event>, k: nat)
    requires k < |q|
    ensures forall e :: e in q ==> e in Remove(q, k) || e == q[k]
  {
    assert q == q[..k] + [q[k]] + q[k + 1..];
  }

  lemma {:induction false} SearchedLosesNone(q: seq<Event>, wanted: bool, user: UserEvents, found: bool, event: Event,
                                             after: seq<Event>)
    requires Searched(q, wanted, user, found, event, after)
    ensures |after| == |q| - Bit(found && wanted)
    ensures forall e :: e in q ==> e in after || (found && wanted && e == event)
  {
    var k := FirstMatch(q, user);
    hide Matches, FirstMatch;
    if found && wanted {
      RemoveKeeps(q, k);
    }
  }

  /** The first event for either is one for the key request. */
  ghost predicate FirstIsForRequest(p: Program, q: seq<Event>, user: UserEvents) {
    exists i :: 0 <= i < |q| && CompletesKeyRequest(p, q[i])
                && forall k :: 0 <= k < i ==> !CompletesKeyRequest(p, q[k]) && !Matches(user, q[k])
  }

  /** And with one: no event is lost, whether it completes the request or not. */
  lemma {:induction false} LookedLosesNone(p: Program, q: seq<Event>, wanted: bool, user: UserEvents, found: bool,
                                           event: Event, after: seq<Event>, p1: Program)
    requires Looked(p, q, wanted, user, found, event, after, p1)
    ensures var completes := FirstIsForRequest(p, q, user);
            && p1 == (if completes then KeyRequestCompleted(p) else p)
            && |after| == |q| - Bit(completes) - Bit(found && wanted)
    ensures forall e :: e in q ==> e in after || (found && wanted && e == event) || CompletesKeyRequest(p, e)
  {
    var j := FirstTaken(p, q, user);
    hide CompletesKeyRequest, Matches, FirstTaken, KeyRequestCompleted, Searched;
    if j < |q| && CompletesKeyRequest(p, q[j]) {
      RemoveKeeps(q, j);
      SearchedLosesNone(Remove(q, j), wanted, user, found, event, after);
    } else {
      SearchedLosesNone(q, wanted, user, found, event, after);
    }
  }

  /** An event that comes when nothing is found. */
  lemma {:induction false} NewEventLooked(p: Program, q: seq<Event>, wanted: bool, user: UserEvents, e: Event)
    requires NoneMatches(q, user) && NoneCompletes(p, q)
    ensures var completes := CompletesKeyRequest(p, e); var found := !completes && Matches(user, e);
            Looked(p, q + [e], wanted, user, found, e, if completes || (found && wanted) then q else q + [e],
                   if completes then KeyRequestCompleted(p) else p)
  {
    var all, n := q + [e], |q|;
    assert Remove(all, n) == q;
    hide Matches, CompletesKeyRequest, FirstTaken, FirstMatch, KeyRequestCompleted;
    if CompletesKeyRequest(p, e) {
      FirstTakenIs(p, all, user, n);
      FirstMatchIs(q, user, n);
    } else {
      FirstTakenIs(p, all, user, if Matches(user, e) then n else n + 1);
      FirstMatchIs(all, user, if Matches(user, e) then n else n + 1);
    }
  }

  // ------------------------------------------------------ a search under way

  /** The first n of what is left have been looked past. */
  ghost predicate Searching(p0: Program, q0: seq<Event>, user: UserEvents, n: nat, q: seq<Event>, p: Program) {
    && NoneMatchesBefore(q, n, user)
    && if p == p0 then q == q0 && forall i :: 0 <= i < n && i < |q| ==> !CompletesKeyRequest(p, q[i])
       else
         var j := FirstTaken(p0, q0, user);
         j < |q0| && CompletesKeyRequest(p0, q0[j]) && q == Remove(q0, j) && p == KeyRequestCompleted(p0)
  }

  lemma {:induction false} SearchBegins(p: Program, q: seq<Event>, user: UserEvents)
    ensures Searching(p, q, user, 0, q, p)
  {
  }

  lemma {:induction false} SearchCompletes(p0: Program, q0: seq<Event>, user: UserEvents, n: nat, q: seq<Event>, p: Program)
    requires Searching(p0, q0, user, n, q, p) && n < |q| && CompletesKeyRequest(p, q[n])
    ensures Searching(p0, q0, user, n, Remove(q, n), KeyRequestCompleted(p))
  {
    assert p == p0;
    hide Matches;
    FirstTakenIs(p0, q0, user, n);
  }

  lemma {:induction false} SearchPasses(p0: Program, q0: seq<Event>, user: UserEvents, n: nat, q: seq<Event>, p: Program)
    requires Searching(p0, q0, user, n, q, p) && n < |q| && !CompletesKeyRequest(p, q[n]) && !Matches(user, q[n])
    ensures Searching(p0, q0, user, n + 1, q, p)
  {
    hide Matches, CompletesKeyRequest, FirstTaken;
  }

  lemma {:induction false} SearchFinds(p0: Program, q0: seq<Event>, wanted: bool, user: UserEvents, n: nat,
                                       q: seq<Event>, p: Program)
    requires Searching(p0, q0, user, n, q, p) && n < |q| && !CompletesKeyRequest(p, q[n]) && Matches(user, q[n])
    ensures Looked(p0, q0, wanted, user, true, q[n], if wanted then Remove(q, n) else q, p)
  {
    FirstMatchIs(q, user, n);
    if p == p0 {
      hide Matches, CompletesKeyRequest, FirstTaken, FirstMatch;
      FirstTakenIs(p0, q0, user, n);
    }
  }

  lemma {:induction false} SearchEnds(p0: Program, q0: seq<Event>, wanted: bool, user: UserEvents, n: nat,
                                      q: seq<Event>, p: Program, event: Event)
    requires Searching(p0, q0, user, n, q, p) && n >= |q|
    ensures Looked(p0, q0, wanted, user, false, event, q, p) && NoneMatches(q, user) && NoneCompletes(p, q)
  {
    FirstMatchIs(q, user, |q|);
    if p == p0 {
      hide Matches, CompletesKeyRequest, FirstTaken, FirstMatch;
      FirstTakenIs(p0, q0, user, |q0|);
    }
  }

  // -------------------------------------------------- what arrives meanwhile

  /** The request for the next event after these completions. */
  function Delivered(status: WsStatus, completions: seq<Completion>): WsStatus {
    if completions == [] || status != Pending then status
    else if completions[0].EventArrives? then Ready(completions[0].event)
    else Delivered(status, completions[1..])
  }

  function TurnOf(script: seq<Circumstance>): Circumstance {
    if script == [] then Nothing else script[0]
  }

  function LaterTurns(script: seq<Circumstance>): seq<Circumstance> {
    if script == [] then [] else script[1..]
  }

  /** The event that a turn takes from the window server and that no front-end
      processor consumes. */
  function TakenIn(status: WsStatus, now: Circumstance): seq<Event> {
    match Delivered(status, now.completions)
    case Ready(e) => if now.fepConsumes then [] else [e]
    case _ => []
  }

  /** The events that n turns take, each as long as there is one. */
  function Arriving(status: WsStatus, script: seq<Circumstance>, n: nat): seq<Event>
    decreases n
  {
    if n == 0 || !Delivered(status, TurnOf(script).completions).Ready? then []
    else TakenIn(status, TurnOf(script)) + Arriving(Pending, LaterTurns(script), n - 1)
  }

  /** In each of n turns there is one. */
  predicate Busy(status: WsStatus, script: seq<Circumstance>, n: nat)
    decreases n
  {
    n == 0 || (Delivered(status, TurnOf(script).completions).Ready? && Busy(Pending, LaterTurns(script), n - 1))
  }

  /** No front-end processor writes anything, and there is memory for the queue. */
  predicate NoText(script: seq<Circumstance>) {
    forall k :: 0 <= k < |script| ==> script[k].fepAppends == [] && !script[k].outOfMemory
  }

  /** Among keys, the first one is found. */
  lemma {:induction false} FirstKeyGoes(p: Program, keys: seq<Event>, found: bool, event: Event, after: seq<Event>, p1: Program)
    requires p.statPtr.None? && forall i :: 0 <= i < |keys| ==> keys[i].Key?
    ensures Looked(p, keys + [], true, UserEventsKeysOnly, found, event, after, p1) ==>
              after == if keys == [] then [] else keys[1..]
  {
    assert keys + [] == keys;
    if keys != [] {
      assert Remove(keys, 0) == keys[1..];
    }
  }

  lemma {:induction false} QuietTurns(status: WsStatus)
    ensures NoText([]) && (status == Pending ==> Arriving(status, [], 10) == [] && !Busy(status, [], 10))
  {
  }

  /** The queue has been searched, and then an event has come. */
  lemma {:induction false} NewEventIsLooked(p: Program, q: seq<Event>, wanted: bool, user: UserEvents, e1: Event,
                                            q1: seq<Event>, p1: Program, e: Event, consumed: bool)
    requires Looked(p, q, wanted, user, false, e1, q1, p1) && NoneMatches(q1, user) && NoneCompletes(p1, q1)
    ensures consumed ==> Looked(p, q + [], wanted, user, false, e, q1, p1)
    ensures var completes := CompletesKeyRequest(p1, e); var found := !completes && Matches(user, e);
            Looked(p, q + [e], wanted, user, found, e, if completes || (found && wanted) then q1 else q1 + [e],
                   if completes then KeyRequestCompleted(p1) else p1)
  {
    NewEventLooked(p1, q1, wanted, user, e);
    var completes := CompletesKeyRequest(p1, e);
    var found := !completes && Matches(user, e);
    LookedOn(p, q, wanted, user, e1, q1, p1, [e], found, e, if completes || (found && wanted) then q1 else q1 + [e],
             if completes then KeyRequestCompleted(p1) else p1);
    assert q + [] == q;
  }

  /** A KEYA or GETEVENTA looks at the first event only: any event is good enough
      to end the search. */
  lemma {:induction false} FirstEventDecides(p: Program, q: seq<Event>, taken: seq<Event>, coming: seq<Event>, noText: bool,
                                             ready: bool, event: Event, after: seq<Event>, p1: Program)
    requires p.statPtr.Some? && taken <= coming
    requires noText ==> Looked(p, q + taken, false, UserEventsAny, ready, event, after, p1) && (!ready ==> taken == coming)
    ensures noText ==>
              var all := q + coming;
              && (p1.statPtr.None? <==> all != [] && CompletesKeyRequest(p, all[0]))
              && p1.explicit == p.explicit + Bit(p1.statPtr.None?)
              && (all == [] ==> !ready && after == [] && p1 == p)
              && (coming == [] ==> after == if p1.statPtr.None? then q[1..] else q)
  {
    var all := q + taken;
    if noText && all != [] {
      FirstTakenIs(p, all, UserEventsAny, 0);
      assert all[0] == (q + coming)[0] && Remove(all, 0) == all[1..];
      assert coming == [] ==> all == q;
    }
  }

  // ------------------------------------------------------------- ten turns

  function TurnAt(script: seq<Circumstance>, i: nat): Circumstance {
    if i < |script| then script[i] else Nothing
  }

  function Rest(script: seq<Circumstance>, i: nat): seq<Circumstance> {
    if i < |script| then script[i..] else []
  }

  lemma {:induction false} RestTurn(script: seq<Circumstance>, i: nat)
    ensures TurnOf(Rest(script, i)) == TurnAt(script, i) && LaterTurns(Rest(script, i)) == Rest(script, i + 1)
    ensures Rest(script, 0) == script
    ensures NoText(script) ==> TurnAt(script, i).fepAppends == [] && !TurnAt(script, i).outOfMemory
  {
  }

  /** After i turns without an answer: what has been taken, and the search so far. */
  ghost predicate Turned(p0: Program, q0: seq<Event>, status0: WsStatus, script: seq<Circumstance>, wanted: bool,
                         user: UserEvents, i: nat, taken: seq<Event>, event: Event, q: seq<Event>, p: Program,
                         status: WsStatus) {
    && i <= 10
    && Arriving(status0, script, 10) == taken + Arriving(status, Rest(script, i), 10 - i)
    && Busy(status0, script, 10) == Busy(status, Rest(script, i), 10 - i)
    && (NoText(script) ==>
          if i == 0 then taken == [] && q == q0 && p == p0 else Looked(p0, q0 + taken, wanted, user, false, event, q, p))
  }

  /** What is known when there is an answer. */
  ghost predicate Answered(p0: Program, q0: seq<Event>, status0: WsStatus, script: seq<Circumstance>, wanted: bool,
                           user: UserEvents, taken: seq<Event>, ready: bool, event: Event, gaveUp: bool, q: seq<Event>,
                           p: Program) {
    && taken <= Arriving(status0, script, 10)
    && (NoText(script) ==>
          && Looked(p0, q0 + taken, wanted, user, ready, event, q, p)
          && (!ready ==> taken == Arriving(status0, script, 10) && gaveUp == Busy(status0, script, 10)))
  }

  lemma {:induction false} NoTurnYet(p: Program, q: seq<Event>, status: WsStatus, script: seq<Circumstance>, wanted: bool,
                                     user: UserEvents, event: Event)
    ensures Turned(p, q, status, script, wanted, user, 0, [], event, q, p, status)
  {
    RestTurn(script, 0);
  }

  lemma {:induction false} TurnsAreOver(p0: Program, q0: seq<Event>, status0: WsStatus, script: seq<Circumstance>, wanted: bool,
                                        user: UserEvents, taken: seq<Event>, event: Event, q: seq<Event>, p: Program,
                                        status: WsStatus)
    requires Turned(p0, q0, status0, script, wanted, user, 10, taken, event, q, p, status)
    ensures Answered(p0, q0, status0, script, wanted, user, taken, false, event, true, q, p)
  {
    hide Looked;
    assert taken + [] == taken;
  }

  /** One more turn. */
  lemma {:induction false} Turn(p0: Program, q0: seq<Event>, status0: WsStatus, script: seq<Circumstance>, wanted: bool,
                                user: UserEvents, i: nat, taken: seq<Event>, e1: Event, q1: seq<Event>, p1: Program,
                                status1: WsStatus, more: seq<Event>, answered: bool, ready: bool, event: Event, gaveUp: bool,
                                q: seq<Event>, p: Program, status: WsStatus)
    requires i < 10 && Turned(p0, q0, status0, script, wanted, user, i, taken, e1, q1, p1, status1)
    requires var now := TurnAt(script, i); var next := Delivered(status1, now.completions);
             && (more == TakenIn(status1, now) || (more == [] && ready))
             && (ready ==> answered) && (!answered ==> status == Pending && next.Ready?)
             && (!ready && next.Ready? ==> !answered || now.outOfMemory)
             && (!ready && !next.Ready? ==> answered && !gaveUp)
             && (now.fepAppends == [] && !now.outOfMemory ==> Looked(p1, q1 + more, wanted, user, ready, event, q, p))
    ensures answered ==> Answered(p0, q0, status0, script, wanted, user, taken + more, ready, event, gaveUp, q, p)
    ensures !answered ==> Turned(p0, q0, status0, script, wanted, user, i + 1, taken + more, event, q, p, status)
  {
    RestTurn(script, i);
    ArrivingTurn(status1, Rest(script, i), 10 - i);
    var later := Arriving(Pending, Rest(script, i + 1), 9 - i);
    hide Looked, TakenIn, Delivered, Arriving, Busy, NoText, Rest, TurnAt, LaterTurns, TurnOf;
    TakenSoFar(taken, more, later);
    if NoText(script) {
      LookedTurn(p0, q0, taken, i, wanted, user, e1, q1, p1, more, ready, event, q, p);
    }
  }

  lemma {:induction false} TakenSoFar(taken: seq<Event>, more: seq<Event>, later: seq<Event>)
    ensures taken + (more + later) == (taken + more) + later && taken + [] == taken
    ensures taken + more <= taken + (more + later) && taken <= taken + later
  {
  }

  lemma {:induction false} ArrivingTurn(status: WsStatus, script: seq<Circumstance>, n: nat)
    requires n > 0
    ensures var next := Delivered(status, TurnOf(script).completions);
            && Arriving(status, script, n)
               == (if next.Ready? then TakenIn(status, TurnOf(script)) + Arriving(Pending, LaterTurns(script), n - 1) else [])
            && (Busy(status, script, n) <==> next.Ready? && Busy(Pending, LaterTurns(script), n - 1))
            && (!next.Ready? ==> TakenIn(status, TurnOf(script)) == [])
  {
  }

  lemma {:induction false} LookedTurn(p0: Program, q0: seq<Event>, taken: seq<Event>, i: nat, wanted: bool, user: UserEvents,
                                      e1: Event, q1: seq<Event>, p1: Program, more: seq<Event>,
                                      found: bool, event: Event, after: seq<Event>, p2: Program)
    requires if i == 0 then taken == [] && q1 == q0 && p1 == p0 else Looked(p0, q0 + taken, wanted, user, false, e1, q1, p1)
    requires Looked(p1, q1 + more, wanted, user, found, event, after, p2)
    ensures Looked(p0, q0 + (taken + more), wanted, user, found, event, after, p2)
  {
    hide Looked;
    ConcatAssoc(q0, taken, more);
    if i == 0 {
      assert q0 + taken == q0;
    } else {
      LookedOn(p0, q0 + taken, wanted, user, e1, q1, p1, more, found, event, after, p2);
    }
  }

  lemma {:induction false} QuietTurn(script: seq<Circumstance>, i: nat)
    ensures script == [] ==> TurnAt(script, i).completions == []
  {
  }

  /** An event that was ready before the first turn. */
  lemma {:induction false} ReadyEventComes(status: WsStatus, script: seq<Circumstance>, taken: seq<Event>)
    requires status.Ready? && taken <= Arriving(status, script, 10) && !TurnAt(script, 0).fepConsumes
    ensures taken != [] ==> taken[0] == status.event
    ensures TakenIn(status, TurnAt(script, 0)) == [status.event]
  {
    assert Delivered(status, TurnOf(script).completions) == status;
  }

  lemma {:induction false} ReadyEventIsFirst(p: Program, q: seq<Event>, taken: seq<Event>, wanted: bool, user: UserEvents,
                                             ready: bool, event: Event, after: seq<Event>, p1: Program, e: Event)
    requires Looked(p, q + taken, wanted, user, ready, event, after, p1) && taken != [] && taken[0] == e
    requires p.statPtr.None? && NoneMatches(q, user) && Matches(user, e)
    ensures ready && event == e && after == (if wanted then q else q + [e]) + taken[1..]
  {
    hide Matches, FirstMatch, FirstTaken;
    var all, n := q + taken, |q|;
    FirstMatchIs(all, user, n);
    assert Remove(all, n) == q + taken[1..];
    assert all == (q + [e]) + taken[1..];
  }

  /** It is the answer, or in the queue, or still ready. */
  lemma {:induction false} ReadyEventIsKept(p: Program, q: seq<Event>, taken: seq<Event>, wanted: bool, user: UserEvents,
                                            ready: bool, event: Event, after: seq<Event>, p1: Program, e: Event)
    requires Looked(p, q + taken, wanted, user, ready, event, after, p1) && taken != [] && taken[0] == e
    ensures e in after || (ready && wanted && event == e) || CompletesKeyRequest(p, e)
    ensures p.statPtr.None? && NoneMatches(q, user) && Matches(user, e) ==>
              ready && event == e && after == (if wanted then q else q + [e]) + taken[1..]
  {
    assert (q + taken)[|q|] == e && e in q + taken;
    hide Looked, Matches, CompletesKeyRequest, FirstIsForRequest, KeyRequestCompleted;
    LookedLosesNone(p, q + taken, wanted, user, ready, event, after, p1);
    if p.statPtr.None? && NoneMatches(q, user) && Matches(user, e) {
      ReadyEventIsFirst(p, q, taken, wanted, user, ready, event, after, p1, e);
    }
  }

  lemma {:induction false} FirstTurnTakes(status0: WsStatus, status: WsStatus, script: seq<Circumstance>, i: nat,
                                          taken: seq<Event>, more: seq<Event>)
    requires status0.Ready? && !TurnAt(script, 0).fepConsumes
    requires if i == 0 then taken == [] && status == status0 && more == TakenIn(status, TurnAt(script, 0)) else taken != []
    ensures taken + more != []
  {
    assert Delivered(status0, TurnAt(script, 0).completions) == status0;
  }

  /** What the answer means for an event that was ready at the start. */
  lemma {:induction false} ReadyEvent(p0: Program, q0: seq<Event>, status0: WsStatus, script: seq<Circumstance>, wanted: bool,
                                      user: UserEvents, taken: seq<Event>, ready: bool, event: Event, gaveUp: bool,
                                      q: seq<Event>, p: Program)
    requires Answered(p0, q0, status0, script, wanted, user, taken, ready, event, gaveUp, q, p)
    ensures status0.Ready? && !TurnAt(script, 0).fepConsumes && NoText(script) && taken != [] ==>
              var e := status0.event;
              && (e in q || (ready && wanted && event == e) || CompletesKeyRequest(p0, e))
              && (p0.statPtr.None? && NoneMatches(q0, user) && Matches(user, e) ==> ready && event == e)
  {
    hide Looked, CompletesKeyRequest, Matches, NoneMatches, Arriving, Busy;
    if status0.Ready? && !TurnAt(script, 0).fepConsumes && NoText(script) && taken != [] {
      ReadyEventComes(status0, script, taken);
      ReadyEventIsKept(p0, q0, taken, wanted, user, ready, event, q, p, status0.event);
    }
  }
}
