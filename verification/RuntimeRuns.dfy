/** Runs of the runtime in which a promise is not kept. */
module RuntimeRuns {
  import opened Wrappers
  import opened Stack
  import opened GlobalsTable
  import opened Modules
  import opened Frames
  import opened Nesting
  import opened Traces
  import opened Runtime

  const NoFaults := Faults(false, false, false, 8, 8, 0)

  /** A procedure without globals or parameters. */
  function Procedure(name: Name, externals: seq<(Name, int)>, maxStack: nat): ProcDef {
    ProcDef(name, [], [], externals, maxStack)
  }

  /** A runtime with a stack of the smallest size and one module loaded. */
  method Started(procs: seq<ProcDef>) returns (r: COplRuntime)
    ensures fresh(r) && fresh(r.iStack) && fresh(r.iStack.iCell) && fresh(r.iGlobalTbl) && fresh(r.iGlobalTbl.iList)
    ensures fresh(r.iGlobalTbl.iListMark) && fresh(r.iModules) && fresh(r.iModules.iModule) && fresh(r.iModules.made)
    ensures r.Running() && r.all == [] && r.depth == 0 && r.own == [] && r.roomKept && !r.iTrap && r.iCallbackInfoArray == []
    ensures r.iStack.iCell.Length == KMinimumCell && r.iStack.iSP == KMinimumCell
    ensures |r.iModules.listed| == 1 && r.iModules.listed[0].iProcs == procs
  {
    r := new COplRuntime(KMinimumCell);
    var err := r.LoadModule([0x4D], Some(procs));
  }

  /** A call, by code, of a procedure without parameters and externals. */
  method Call(r: COplRuntime, p: ProcDef)
    requires r.Running() && |p.iGlobals| <= 8 && p.iParamList == [] && p.iExternals == []
    requires var target := FirstWith(r.iModules.listed, p.name); target.Some? && target.value.1 == p
    requires r.iStack.iSP - 4 - KReserve >= p.iMaxStack
    modifies r`iFrame, r`iIP, r`all, r`depth, r`own, r.iStack, r.iStack.iCell
    modifies r.iGlobalTbl`flat, r.iGlobalTbl.iList, r.iGlobalTbl.iListMark, r.iModules`running, r.iModules.made
    ensures r.Running() && r.own == [] && r.depth == old(r.depth) + 1 && r.iFrame != null
    ensures |r.all| == |old(r.all)| + 1 && r.all[1..] == old(r.all) && r.all[0].own == old(r.own) && r.all[0].frame == r.iFrame
    ensures r.iFrame.iProcDef == p && r.iFrame.iSP == r.iStack.iSP == old(r.iStack.iSP) - 4
  {
    hide COplRuntime.Running, ItemsOf;
    var err, entered := r.RunProcedure(p.name, [], r.own, 0, NoFaults);
    r.PointerBelowFrame();
  }

  lemma {:induction false} TwoProcedures(m: CModule, a: ProcDef, b: ProcDef)
    requires m.iProcs == [a, b] && a.name != b.name
    ensures FirstWith([m], a.name) == Some((m, a)) && FirstWith([m], b.name) == Some((m, b))
  {
    assert m.iProcs[1..] == [b] && FindIn([b], b.name) == Some(b);
  }

  lemma {:induction false} TwoAndAString(v: Value, s: Value)
    requires Size(v) == 8 && !v.Str? && s.Str?
    ensures NonString([v, v, s]) == 16
    ensures TotalSize([v, v, s]) == 16 + Size(s) && TotalSize([s]) == Size(s) && StringBytes([]) == 0
  {
    assert [s][1..] == [] && NonString([s]) == 0 && TotalSize([s]) == Size(s);
    assert [v, s][1..] == [s] && NonString([v, s]) == 8 && TotalSize([v, s]) == 8 + Size(s);
    assert [v, v, s][1..] == [v, s];
  }

  const Caller := Procedure([0x43], [], 200)
  const Texter := Procedure([0x54, 0x24], [], 8)

  /** The first procedure has called the second. */
  method CallerCallsTexter() returns (r: COplRuntime)
    ensures fresh(r) && fresh(r.iStack) && fresh(r.iStack.iCell) && fresh(r.iGlobalTbl) && fresh(r.iGlobalTbl.iList)
    ensures fresh(r.iModules) && fresh(r.iModules.made)
    ensures r.Running() && r.depth == |r.all| == 2 && r.own == [] && r.all[0].own == []
    ensures r.all[0].frame.iProcDef == Texter && r.all[1].frame.iProcDef == Caller && r.iFrame == r.all[0].frame
    ensures r.all[1].frame.iSP == KMinimumCell - 4 && r.iStack.iSP == KMinimumCell - 8
  {
    hide COplRuntime.Running;
    r := Started([Caller, Texter]);
    assert r.iModules.listed == [r.iModules.listed[0]];
    TwoProcedures(r.iModules.listed[0], Caller, Texter);
    hide FirstWith;
    Call(r, Caller);
    Call(r, Texter);
  }

  /** A string of 118 characters. */
  const LongText := Str(seq(118, _ => 32))

  lemma {:induction false} LongTextSize()
    ensures InRange(LongText) && Size(LongText) == 240 && TotalSize([LongText]) == 240
  {
    assert [LongText][1..] == [];
  }

  /** The second procedure has pushed the string it returns. */
  method TexterPushes() returns (r: COplRuntime)
    ensures fresh(r) && fresh(r.iStack) && fresh(r.iStack.iCell) && fresh(r.iGlobalTbl) && fresh(r.iGlobalTbl.iList)
    ensures fresh(r.iModules) && fresh(r.iModules.made)
    ensures r.Running() && r.depth == |r.all| == 2 && r.own == [LongText] && r.all[0].own == []
    ensures r.all[1].frame.iProcDef == Caller && r.iFrame == r.all[0].frame
    ensures r.all[1].frame.iSP == KMinimumCell - 4
  {
    LongTextSize();
    hide COplRuntime.Running, TotalSize, Size, InRange;
    r := CallerCallsTexter();
    var err := r.PushString(seq(118, _ => 32));
  }

  method TexterReturns() returns (r: COplRuntime)
    ensures fresh(r) && fresh(r.iStack) && fresh(r.iStack.iCell)
    ensures r.Running() && |r.all| == 1 && r.own == [LongText] && !r.roomKept
    ensures r.all[0].frame.iProcDef == Caller && r.iStack.iSP == KMinimumCell - 4 - 240
  {
    LongTextSize();
    assert StringBytes([]) == 0;
    hide COplRuntime.Running, StringBytes, TotalSize, Size, InRange, LongText;
    r := TexterPushes();
    var exit := r.Return();
    r.PointerBelowFrame();
  }

  /** SP below iBase: a procedure declares 200 bytes and pushes 16 of fixed size,
      beside the string that a procedure it called has returned. That one declared
      8 bytes and had them. */
  method ReturnedStringTakesRoom() returns (r: COplRuntime)
    ensures fresh(r) && r.Running() && |r.all| == 1 && !r.roomKept
    ensures r.all[0].frame.iProcDef == Caller && Caller.iMaxStack == 200 && NonString(r.own) == 16
    ensures r.iStack.iSP == KReserve - 4
  {
    var zero := Real([0, 0, 0, 0, 0, 0, 0, 0]);
    assert InRange(zero) && Size(zero) == 8 && LongText.Str?;
    TwoAndAString(zero, LongText);
    hide COplRuntime.Running, NonString, Size, InRange, LongText;
    r := TexterReturns();
    r.PushFixed(zero);
    r.PushFixed(zero);
    assert r.own == [zero, zero, LongText];
  }

  /** It refers to a global. */
  const Loser := Procedure([0x4C], [([0x47], 0)], 8)

  /** The same as the first procedure, with that global. */
  const Owner := ProcDef([0x43], [Decl([0x47], 0, 0)], [], [], 200)

  predicate IsCaller(p: ProcDef) {
    |p.iGlobals| <= 8 && p.iParamList == [] && p.iExternals == [] && p.iMaxStack == 200
  }

  /** The first procedure runs and has nothing on the stack. */
  method CallerRuns(caller: ProcDef, other: ProcDef) returns (r: COplRuntime)
    requires other.name != caller.name && IsCaller(caller)
    ensures fresh(r) && fresh(r.iStack) && fresh(r.iStack.iCell) && fresh(r.iGlobalTbl) && fresh(r.iGlobalTbl.iList)
    ensures fresh(r.iGlobalTbl.iListMark) && fresh(r.iModules) && fresh(r.iModules.iModule) && fresh(r.iModules.made)
    ensures r.Running() && r.depth == |r.all| == 1 && r.own == [] && r.iFrame == r.all[0].frame && !r.iTrap
    ensures r.all[0].frame.iProcDef == caller && r.iCallbackInfoArray == [] && r.iStack.iSP == KMinimumCell - 4
    ensures |r.iModules.listed| == 1 && r.iModules.listed[0].iProcs == [caller, other]
  {
    hide COplRuntime.Running;
    r := Started([caller, other]);
    assert r.iModules.listed == [r.iModules.listed[0]];
    TwoProcedures(r.iModules.listed[0], caller, other);
    hide FirstWith;
    Call(r, caller);
  }

  lemma {:induction false} OtherIsFound(r: COplRuntime, caller: ProcDef, other: ProcDef)
    requires |r.iModules.listed| == 1 && r.iModules.listed[0].iProcs == [caller, other] && caller.name != other.name
    ensures var target := FirstWith(r.iModules.listed, other.name); target.Some? && target.value.1 == other
  {
    assert r.iModules.listed == [r.iModules.listed[0]];
    TwoProcedures(r.iModules.listed[0], caller, other);
  }

  lemma {:induction false} LoserIsUnresolved(r: COplRuntime)
    requires r.Running() && |r.all| == 1 && r.all[0].frame.iProcDef == Caller
    ensures Unresolved(Loser, r.all)
  {
    hide CStack.Valid, CGlobalsTbl.Valid, CModulesCollection.Valid, ItemsOf, HoldsAll, Linked, TotalSize;
    assert r.all[0].added == [] && r.all[1..] == [];
    assert GlobalsOf(r.all) == [];
    assert !Declares(Loser.iGlobals, Loser.iExternals[0].0, Loser.iExternals[0].1);
  }

  lemma {:induction false} OwnerHasIt(r: COplRuntime)
    requires r.Running() && |r.all| == 1 && r.all[0].frame.iProcDef == Owner
    ensures !Unresolved(Loser, r.all)
  {
    hide CStack.Valid, CGlobalsTbl.Valid, CModulesCollection.Valid, ItemsOf, HoldsAll, Linked, TotalSize;
    var added := r.all[0].added;
    assert Added(added, Owner.iGlobals, r.all[0].cell) && r.all[1..] == [] && r.all == [r.all[0]] + [];
    AddedFinds(added, Owner.iGlobals, r.all[0].cell, [0x47], 0);
    InnermostFirst(added, GlobalsOf([]), [0x47], 0);
    assert Declares(Owner.iGlobals, [0x47], 0) by { assert Owner.iGlobals[0] == Decl([0x47], 0, 0); }
    assert GlobalsOf(r.all) == added + GlobalsOf([]);
  }

  /** A native procedure called by it is about to call back. */
  method CallbackIsPrepared(caller: ProcDef, other: ProcDef, name: seq<int>) returns (r: COplRuntime)
    requires other.name != caller.name && IsCaller(caller) && InRange(Str(name)) && |name| == 1
    ensures fresh(r) && fresh(r.iStack) && fresh(r.iStack.iCell) && fresh(r.iGlobalTbl) && fresh(r.iGlobalTbl.iList)
    ensures fresh(r.iGlobalTbl.iListMark) && fresh(r.iModules) && fresh(r.iModules.iModule) && fresh(r.iModules.made)
    ensures r.Running() && r.depth == |r.all| == 1 && r.own == [Str(name)]
    ensures r.iFrame == r.all[0].frame && !r.iTrap && r.all[0].frame.iProcDef == caller
    ensures r.iCallbackInfoArray == [SCallbackInfo(KMinimumCell - 4, 0)]
    ensures r.FloorPos(Context(r.all, 0, [], r.iIP)) == KMinimumCell - 4
    ensures r.iStack.iSP == KMinimumCell - 4 - Size(Str(name))
    ensures Linked(r.all, 1) && (r.roomKept ==> Room(r.all, []))
    ensures var target := FirstWith(r.iModules.listed, other.name); target.Some? && target.value.1 == other
    ensures |r.iModules.listed| == 1 && r.iModules.listed[0].iProcs == [caller, other]
  {
    assert Size(Str(name)) == 4;
    hide COplRuntime.Running, FirstWith, InRange, Size, COplRuntime.Sound, Linked, Room, COplRuntime.FloorPos;
    r := CallerRuns(caller, other);
    Prepare(r, name);
    OtherIsFound(r, caller, other);
  }

  method Prepare(r: COplRuntime, name: seq<int>)
    requires r.Running() && r.iFrame != null && r.depth == |r.all| == 1 && r.own == [] && InRange(Str(name))
    requires r.iStack.iSP - Size(Str(name)) >= KReserve + r.iFrame.iProcDef.iMaxStack
    modifies r`own, r`iCallbackInfoArray, r`strandedEntries, r.iStack, r.iStack.iCell
    ensures r.Running() && r.own == [Str(name)]
    ensures r.iCallbackInfoArray == old(r.iCallbackInfoArray) + [SCallbackInfo(old(r.iStack.iSP), 0)]
    ensures r.FloorPos(Context(r.all, 0, [], r.iIP)) == old(r.iStack.iSP)
    ensures r.iStack.iSP == old(r.iStack.iSP) - Size(Str(name))
    ensures Linked(r.all, 1) && (r.roomKept ==> Room(r.all, []))
  {
    r.RunningIsSound();
    assert r.FloorPos(Context(r.all, 0, [], r.iIP)) == r.iStack.iSP;
    r.PointerBelowFrame();
    NameAlone(name);
    hide COplRuntime.Running, InRange, Size, COplRuntime.Sound, COplRuntime.FloorPos, ArgBlock, TotalSize, ItemsOf;
    var err := r.PrepareCallback(name, [], false);
    r.PointerBelowFrame();
    r.LinkedNow();
    r.RoomBelowParams([], name, []);
  }

  lemma {:induction false} NameAlone(name: seq<int>)
    ensures ArgBlock([]) + ([Str(name)] + []) == [Str(name)] && TotalSize([Str(name)]) == Size(Str(name))
  {
    assert [Str(name)][1..] == [];
  }

  /** A callback to that procedure: afterwards the procedure that was interrupted
      runs again, the only one that is chained, and the globals table and the
      counts of the modules have a frame more. */
  method CallbackLosesFrame() returns (r: COplRuntime, out: Outcome)
    ensures fresh(r) && out == FrameLost && |r.all| == 2 && r.TableOK() && r.CountsOK()
    ensures r.depth == 1 && r.iFrame == r.all[1].frame
  {
    var name: seq<int> := [0x4C];
    assert InRange(Str(name)) && Size(Str(name)) == 4;
    hide COplRuntime.Running, FirstWith, Unresolved, InRange, Size, ArgBlock, COplRuntime.FloorPos;
    r := CallbackIsPrepared(Caller, Loser, name);
    LoserIsUnresolved(r);
    NameAlone(name);
    assert r.LosesFrame([], name, Loser.name, 0, NoFaults);
    hide COplRuntime.LosesFrame, COplRuntime.GetsFrame;
    var left, loss;
    ghost var inner;
    out, left, loss, inner := r.CallProcedure([], name, Context(r.all, 0, [], r.iIP), Loser.name, 0, 0, NoFaults, []);
  }

  /** The same with a procedure that has the global, when there is memory for the
      table of externals but not for its entry. */
  method LackOfMemoryLosesFrame() returns (r: COplRuntime, out: Outcome)
    ensures fresh(r) && out == FrameLost && |r.all| == 2 && r.TableOK() && r.CountsOK()
    ensures r.depth == 1 && r.iFrame == r.all[1].frame && !Unresolved(Loser, r.all[1..])
  {
    var name: seq<int> := [0x4C];
    var faults := NoFaults.(tableFailAt := 1);
    assert InRange(Str(name)) && Size(Str(name)) == 4;
    hide COplRuntime.Running, FirstWith, Unresolved, InRange, Size, ArgBlock, COplRuntime.FloorPos;
    r := CallbackIsPrepared(Owner, Loser, name);
    OwnerHasIt(r);
    NameAlone(name);
    assert r.LosesFrame([], name, Loser.name, 0, faults);
    hide COplRuntime.LosesFrame, COplRuntime.GetsFrame;
    var left, loss;
    ghost var inner;
    out, left, loss, inner := r.CallProcedure([], name, Context(r.all, 0, [], r.iIP), Loser.name, 0, 0, faults, []);
  }

  const Inner := Procedure([0x49], [], 8)

  /** The callback begins. */
  method Begin(r: COplRuntime, name: seq<int>, c: Context)
    requires r.Running() && r.own == [Str(name)] && c.floor == [] && name == [0x49]
    requires c.base == r.all && c.baseDepth == 0 && c.retIP == r.iIP
    requires |r.iCallbackInfoArray| == 1 && r.iCallbackInfoArray[0].iParamCount == 0
    requires r.GetsFrame([], name, Inner.name, 0, NoFaults) && !r.LosesFrame([], name, Inner.name, 0, NoFaults)
    requires r.iStack.iSP >= KSlack
    modifies r`iFrame, r`iIP, r`all, r`depth, r`own, r.iStack, r.iStack.iCell
    modifies r.iGlobalTbl`flat, r.iGlobalTbl.iList, r.iGlobalTbl.iListMark, r.iModules`running, r.iModules.made
    ensures r.Running() && r.all != [] && r.all[1..] == c.base && Attached(r.all, r.depth, c) && r.depth == 1
    ensures r.own == [] && r.all[0].iOnErrIP == None && r.iFrame == r.all[0].frame
    ensures FirstWith(r.iModules.listed, Typed(Inner.name, 0)) == Some((r.iFrame.iModule, r.iFrame.iProcDef))
    ensures r.iStack.iSP == old(r.iStack.iSP) - 4
  {
    hide COplRuntime.Running, FirstWith, ArgBlock, COplRuntime.GetsFrame, COplRuntime.LosesFrame, Attached, Passable, Typed;
    assert Passable([]) by { NoArgsPass(); }
    NameAlone(name);
    var err, entered := r.EnterCallback([], name, c, Inner.name, 0, 0, NoFaults);
  }

  lemma {:induction false} NoArgsPass()
    ensures Passable([])
  {
  }

  lemma {:induction false} InnerGetsFrame(r: COplRuntime, name: seq<int>)
    requires name == [0x49] && r.iStack.iSP >= 4 + KReserve + 8
    requires var target := FirstWith(r.iModules.listed, Inner.name); target.Some? && target.value.1 == Inner
    ensures r.GetsFrame([], name, Inner.name, 0, NoFaults) && !r.LosesFrame([], name, Inner.name, 0, NoFaults)
    ensures Typed(Inner.name, 0) == Inner.name
  {
    hide FirstWith;
    assert !Unresolved(Inner, r.all);
  }

  /** A name that is too long for a nested callback. */
  method NestedInitFails(r: COplRuntime, tooLong: seq<int>) returns (err: int)
    requires r.Running() && r.iFrame != null && InRange(Str(tooLong)) && r.iStack.iSP - Size(Str(tooLong)) < KReserve
    modifies r`own, r`iCallbackInfoArray, r`strandedEntries, r.iStack, r.iStack.iCell
    ensures r.iCallbackInfoArray == old(r.iCallbackInfoArray) + [SCallbackInfo(old(r.iStack.iSP), 0)]
    ensures err == KErrNoMemory && r.Sound()
  {
    hide COplRuntime.Running, COplRuntime.Sound, InRange, Size, SameFrom;
    err := r.InitCallbackL(tooLong, false);
  }

  /** Nobody handles the error. */
  method NobodyHandles(r: COplRuntime, c: Context, err: int)
    requires r.Sound() && Attached(r.all, 1, c) && |r.all| == 2 && r.all[1..] == c.base && c.baseDepth == 0 && err < KErrNone
    requires r.depth == 1 && !r.iTrap && r.all[0].iOnErrIP == None
    modifies r`iFrame, r`iIP, r`all, r`depth, r`own, r`iTrap, r.iStack
    modifies r.iGlobalTbl`flat, r.iGlobalTbl.iList, r.iModules`running, r.iModules.made
    ensures r.Ended(Failed(err), c)
  {
    NoneEvaluates(r.all, c);
    hide COplRuntime.Running, COplRuntime.Sound, FloorHolds, Passed, Attached, COplRuntime.Leaked, StillThere;
    hide COplRuntime.Nested, Tail;
    var unhandled := r.Handle(c);
  }

  lemma {:induction false} NoneEvaluates(fs: seq<Live>, c: Context)
    requires Attached(fs, 1, c) && |fs| == 2 && fs[1..] == c.base && fs[0].iOnErrIP == None
    ensures Passed(fs, 1)
  {
  }

  /** So the outer callback fails too. */
  method CallbackFails(r: COplRuntime, name: seq<int>, tooLong: seq<int>, c: Context)
    requires r.Running() && r.own == [Str(name)] && c.floor == [] && name == [0x49] && |r.all| == 1
    requires c.base == r.all && c.baseDepth == 0 && c.retIP == r.iIP && !r.iTrap && r.iStack.iSP >= KSlack
    requires |r.iCallbackInfoArray| == 1 && r.iCallbackInfoArray[0].iParamCount == 0
    requires r.GetsFrame([], name, Inner.name, 0, NoFaults) && !r.LosesFrame([], name, Inner.name, 0, NoFaults)
    requires InRange(Str(tooLong)) && r.iStack.iSP - 4 - Size(Str(tooLong)) < KReserve
    requires Linked(c.base, 1) && (r.roomKept ==> Room(c.base, []))
    modifies r`iFrame, r`iIP, r`all, r`depth, r`own, r`iTrap, r`iCallbackInfoArray, r`strandedEntries, r.iStack, r.iStack.iCell
    modifies r`iInCallback, r`callbacksEnded
    modifies r.iGlobalTbl`flat, r.iGlobalTbl.iList, r.iGlobalTbl.iListMark, r.iModules`running, r.iModules.made
    ensures r.Sound() && r.all == c.base && r.depth == 1 && r.iCallbackInfoArray == old(r.iCallbackInfoArray)
    ensures r.iStack.iSP == old(r.iStack.iSP) - 4
  {
    hide COplRuntime.Running, COplRuntime.Sound, InRange, Size, Room, COplRuntime.Ended, Attached, Linked;
    hide COplRuntime.GetsFrame, COplRuntime.LosesFrame, Typed, FirstWith, Inner;
    Begin(r, name, c);
    ghost var entries := r.iCallbackInfoArray;
    var err := NestedInitFails(r, tooLong);
    NobodyHandles(r, c, err);
    r.FinishCallback(Failed(err), c.base[0].frame, 1, c);
    assert r.iCallbackInfoArray == entries;
  }

  /** The stack does not go back to where the callback began, but only to where the
      nested one did; and the entry of the outer one stays behind for good. */
  method FailedInitLeavesEntry() returns (r: COplRuntime)
    ensures fresh(r) && r.Sound() && r.depth == |r.all| == 1
    ensures r.iStack.iSP == KMinimumCell - 12 && r.iCallbackInfoArray == [SCallbackInfo(KMinimumCell - 4, 0)]
  {
    var name: seq<int>, tooLong := [0x49], seq(255, _ => 32);
    assert InRange(Str(name)) && InRange(Str(tooLong)) && Size(Str(tooLong)) > 400 && Size(Str(name)) == 4;
    hide COplRuntime.Running, COplRuntime.Sound, InRange, Size, Room, Linked, FirstWith, COplRuntime.FloorPos;
    r := CallbackIsPrepared(Caller, Inner, name);
    InnerGetsFrame(r, name);
    hide COplRuntime.GetsFrame, COplRuntime.LosesFrame, Inner;
    CallbackFails(r, name, tooLong, Context(r.all, 0, [], r.iIP));
  }

  lemma {:induction false} NobodyOfThatName(r: COplRuntime)
    requires |r.iModules.listed| == 1 && r.iModules.listed[0].iProcs == [Caller, Inner]
    ensures FirstWith(r.iModules.listed, Typed([0x58], 0)) == None
    ensures !r.GetsFrame([], [0x58], [0x58], 0, NoFaults)
  {
    assert r.iModules.listed == [r.iModules.listed[0]];
    assert [Caller, Inner][1..] == [Inner] && FindIn([Inner], [0x58]) == None && FindIn([Caller, Inner], [0x58]) == None;
  }

  /** A nested callback to a procedure that does not exist; the native procedure
      that made it goes on. */
  method NestedCallbackFails(r: COplRuntime)
    requires r.Running() && r.iFrame != null && r.depth == 1 && |r.all| == 2 && r.own == [] && !r.iTrap
    requires r.iFrame.iProcDef == Inner && r.iStack.iSP >= KReserve + 64
    requires |r.iModules.listed| == 1 && r.iModules.listed[0].iProcs == [Caller, Inner]
    requires r.iStack.iSP == r.FloorPos(Context(r.all, 0, [], r.iIP))
    modifies r, r.iStack, r.iStack.iCell, r.iGlobalTbl, r.iGlobalTbl.iList, r.iGlobalTbl.iListMark
    modifies r.iModules, r.iModules.iModule, r.iModules.made
    ensures r.Running() && !r.iInCallback && r.all == old(r.all) && r.depth == old(r.depth) && r.own == [] && !r.iTrap
    ensures r.iIP == old(r.iIP) && r.iCallbackInfoArray == old(r.iCallbackInfoArray)
    ensures r.iFrame == old(r.iFrame)
  {
    var name: seq<int> := [0x58];
    ghost var infos := r.iCallbackInfoArray;
    assert InRange(Str(name)) && Size(Str(name)) == 4 && Inner.iMaxStack == 8;
    NobodyOfThatName(r);
    NameAlone(name);
    EntryWithParams(infos, r.iStack.iSP, 0);
    hide COplRuntime.Running, COplRuntime.GetsFrame, COplRuntime.LosesFrame, InRange, Size, ArgBlock, FirstWith, Inner;
    hide COplRuntime.Sound, COplRuntime.FloorPos, COplRuntime.Leaked, StillThere, SameFrom, WellFormed, TotalSize;
    hide CallbackTraced, ParamsFit, Prepared, Typed, EntriesLeft, ItemsOf;
    ghost var c, stranded := Context(r.all, 0, [], r.iIP), r.strandedEntries;
    var err := r.PrepareCallback(name, [], false);
    var out, left, loss;
    ghost var inner;
    out, left, loss, inner := r.CallProcedure([], name, Context(r.all, 0, [], r.iIP), [0x58], 0, 0, NoFaults, []);
    EntriesCounted(infos, stranded, r.iCallbackInfoArray, r.strandedEntries, r.FloorPos(c));
  }

  /** The procedure of a callback makes that callback and then stops. The flag is
      clear by then, so STOP is no error: CallProcedure reports success, and the
      frame is still there. */
  method StopInCallback(r: COplRuntime, name: seq<int>, c: Context)
    requires r.Running() && r.own == [Str(name)] && c.floor == [] && name == [0x49] && |r.all| == r.depth == 1
    requires c.base == r.all && c.baseDepth == 0 && c.retIP == r.iIP && !r.iTrap && r.iStack.iSP >= KReserve + 128
    requires |r.iCallbackInfoArray| == 1 && r.iCallbackInfoArray[0].iParamCount == 0
    requires r.GetsFrame([], name, Inner.name, 0, NoFaults) && !r.LosesFrame([], name, Inner.name, 0, NoFaults)
    requires |r.iModules.listed| == 1 && r.iModules.listed[0].iProcs == [Caller, Inner]
    requires FirstWith(r.iModules.listed, Typed(Inner.name, 0)).Some?
    requires FirstWith(r.iModules.listed, Typed(Inner.name, 0)).value.1 == Inner
    modifies r, r.iStack, r.iStack.iCell, r.iGlobalTbl, r.iGlobalTbl.iList, r.iGlobalTbl.iListMark
    modifies r.iModules, r.iModules.iModule, r.iModules.made
    ensures r.Leaked(c.base) && r.depth == 1 && r.iFrame == old(r.iFrame) && r.iCallbackInfoArray == []
    ensures !r.iInCallback
  {
    hide COplRuntime.Running, COplRuntime.GetsFrame, COplRuntime.LosesFrame, FirstWith, Typed, Inner, Attached, Caller;
    hide COplRuntime.Leaked, COplRuntime.Ended, COplRuntime.StepDone;
    var current, deep := r.iFrame, r.depth;
    r.iInCallback := true;
    Begin(r, name, c);
    NothingAboveFrame(r);
    NestedCallbackFails(r);
    var step := StopsNow(r, c);
    r.LoseFrames(ByStop, current, deep);
  }

  lemma {:induction false} NothingAboveFrame(r: COplRuntime)
    requires r.Running() && r.own == []
    ensures r.iStack.iSP == r.FloorPos(Context(r.all, 0, [], r.iIP))
  {
    r.RunningIsSound();
  }

  method StopsNow(r: COplRuntime, c: Context) returns (step: StepResult)
    requires r.Running() && Attached(r.all, r.depth, c) && |r.all| > |c.base| && c.baseDepth == 0 && !r.iTrap && !r.iInCallback
    ensures step == Stop(Stopped) && r.Leaked(c.base)
  {
    hide COplRuntime.Running, Attached, COplRuntime.Leaked, COplRuntime.Sound, StillThere;
    step := r.StopStep(c);
    r.StoppedInside(c);
  }

  /** A callback that loses its frame although it has no externals at all. */
  method StopLosesFrame() returns (r: COplRuntime)
    ensures fresh(r) && r.TableOK() && r.CountsOK() && |r.all| > 1
    ensures r.depth == 1 && r.iFrame != null && r.iFrame.iProcDef == Caller && Inner.iExternals == []
  {
    var name: seq<int> := [0x49];
    assert InRange(Str(name)) && Size(Str(name)) == 4;
    hide COplRuntime.Running, FirstWith, InRange, Size, COplRuntime.FloorPos, COplRuntime.Sound, Linked, Room;
    r := CallbackIsPrepared(Caller, Inner, name);
    InnerGetsFrame(r, name);
    hide COplRuntime.GetsFrame, COplRuntime.LosesFrame, Typed, StillThere;
    StopInCallback(r, name, Context(r.all, 0, [], r.iIP));
  }

  /** What a lost frame costs, here one with the same names as the procedure that
      was interrupted. When that one ends, its destructor takes the entries of the
      lost frame. Its own stay, and are found, though its memory is free by then. */
  method DestructorTakesLost(tbl: CGlobalsTbl, decls: seq<Decl>, ghost lost: seq<TOplGlobal>, ghost lostCell: int,
                             ghost mine: seq<TOplGlobal>, ghost myCell: int, ghost older: seq<TOplGlobal>)
    requires tbl.Valid() && tbl.flat == lost + (mine + older) && decls != []
    requires Added(lost, decls, lostCell) && Added(mine, decls, myCell)
    modifies tbl.iList, tbl`flat
    ensures tbl.Valid() && tbl.flat == mine + older
    ensures var d := decls[|decls| - 1]; Lookup(tbl.flat, d.name, d.typ) == Some(myCell + d.offset)
  {
    tbl.RemoveGlobals(decls, lostCell, lost, mine + older);
    assert (mine + older)[0] == mine[0];
  }
}
