/** COplRuntime: calling and returning, errors that unwind frames, and the nested
    execution of EVAL and of callbacks. */
module Runtime {
  import opened Wrappers
  import opened Stack
  import opened GlobalsTable
  import opened Modules
  import opened Frames
  import opened Nesting
  import opened Traces

  class COplRuntime {
    const iStack: CStack
    const iGlobalTbl: CGlobalsTbl
    const iModules: CModulesCollection
    var iFrame: CFrame?
    var iIP: int
    var iTrap: bool
    var iErrorValue: int
    var iCallbackInfoArray: seq<SCallbackInfo>

    /** All live frames, how many of them belong to the running Execute, and the
        operands of the running procedure: the shadow of the stack. */
    var all: seq<Live>
    var depth: nat
    var own: seq<Value>

    /** Every string returned so far has left its caller the room it declared. */
    ghost var roomKept: bool

    /** The KInCallback flag. */
    var iInCallback: bool

    /** How many InitCallbackL calls have appended an entry and then had no room for
        the name. */
    ghost var strandedEntries: nat

    /** How many callbacks have ended. */
    ghost var callbacksEnded: nat

    ghost predicate FramesOK()
      reads this`all, this`depth, this`iFrame
    {
      AllMade(all, iStack.iCell.Length) && Linked(all, depth) && iFrame == TopFrame(all, depth)
    }

    ghost predicate TableOK()
      reads this`all, iGlobalTbl, iGlobalTbl.iList
    {
      iGlobalTbl.Valid() && iGlobalTbl.flat == GlobalsOf(all)
    }

    ghost predicate CountsOK()
      reads this`all, iModules, iModules.iModule, iModules.made
    {
      iModules.Valid() && iModules.running == ModulesOf(all)
    }

    ghost predicate StackOK()
      reads this`all, iStack.iCell
    {
      iStack.iCell.Length >= KMinimumCell && iStack.iCell.Length % 4 == 0 && StackHolds(iStack.iCell[..], all)
    }

    /** What can be observed between opcodes. */
    ghost function Now(): State
      reads this, iStack`iSP, iModules`listed
    {
      State(all, own, depth, iIP, iStack.iSP, iTrap, iErrorValue, iInCallback, iModules.listed, strandedEntries, roomKept)
    }

    /** As long as every string returned has left room, every frame has the room
        that its procedure declared. */
    ghost predicate RoomOK()
      reads this`all, this`own, this`roomKept
    {
      roomKept ==> Room(all, own)
    }

    ghost predicate CallersRoomOK()
      reads this`all, this`roomKept
    {
      roomKept ==> RoomBelow(all)
    }

    /** What holds at every leave: nothing is known of the operands. */
    ghost predicate Sound()
      reads this`all, this`depth, this`iFrame, this`roomKept
      reads iStack.iCell, iGlobalTbl, iGlobalTbl.iList, iModules, iModules.iModule, iModules.made
    {
      FramesOK() && TableOK() && CountsOK() && StackOK() && CallersRoomOK()
    }

    /** What holds between two opcodes. */
    ghost predicate Running()
      reads this`all, this`depth, this`iFrame, this`own, this`roomKept
      reads iStack, iStack.iCell, iGlobalTbl, iGlobalTbl.iList, iModules, iModules.iModule, iModules.made
    {
      && FramesOK() && TableOK() && CountsOK() && RoomOK()
      && iStack.Valid() && iStack.items == own + ItemsOf(all)
    }

    /** Nothing loaded, nothing called. */
    constructor (aStackSize: nat)
      ensures Running() && all == [] && depth == 0 && own == [] && roomKept
      ensures iFrame == null && !iTrap && iCallbackInfoArray == [] && iModules.listed == [] && iGlobalTbl.flat == []
      ensures !iInCallback && strandedEntries == callbacksEnded == 0
      ensures aStackSize <= KMinimumCell ==> iStack.iCell.Length == KMinimumCell
      ensures iStack.iSP == iStack.iCell.Length
      ensures fresh(iStack) && fresh(iStack.iCell) && fresh(iGlobalTbl) && fresh(iGlobalTbl.iList)
      ensures fresh(iGlobalTbl.iListMark) && fresh(iModules) && fresh(iModules.iModule) && iModules.made == {}
    {
      iStack := new CStack(aStackSize);
      iGlobalTbl := new CGlobalsTbl();
      iModules := new CModulesCollection();
      iFrame, iIP, iTrap, iErrorValue, iCallbackInfoArray := null, 0, false, KErrNone, [];
      all, depth, own, roomKept, strandedEntries := [], 0, [], true, 0;
      iInCallback, callbacksEnded := false, 0;
    }

    /** SP stays above iBase, in every state of every run, as long as every string
        returned has left room and the operands of fixed size are within what the
        running procedure declared. */
    lemma {:induction false} NeverBelow()
      requires Running() && roomKept && all != [] && NonString(own) <= all[0].frame.iProcDef.iMaxStack
      ensures iStack.iSP >= KReserve
      ensures NeverBelowBase(own, all[0].frame.iSP, all[0].frame.iProcDef.iMaxStack)
    {
      RunningIsSound();
      StringsAndOthers(own);
      RoomExactly(own, all[0].frame.iSP, all[0].frame.iProcDef.iMaxStack);
      hide CStack.Valid, CGlobalsTbl.Valid, CModulesCollection.Valid, ItemsOf, TotalSize, HoldsAll, Linked;
    }

    /** And not beyond: once the strings of the running procedure leave it less room,
        it can go below iBase without pushing more than it declared. */
    lemma {:induction false} BelowOtherwise()
      requires Running() && all != [] && NonString(own) <= all[0].frame.iProcDef.iMaxStack && !Room(all, own) && RoomBelow(all)
      ensures !NeverBelowBase(own, all[0].frame.iSP, all[0].frame.iProcDef.iMaxStack)
    {
      RoomExactly(own, all[0].frame.iSP, all[0].frame.iProcDef.iMaxStack);
    }

    lemma {:induction false} RunningIsSound()
      requires Running()
      ensures Sound()
      ensures iStack.iSP == iStack.iCell.Length - TotalSize(own) - TotalSize(ItemsOf(all))
      ensures own == [] ==> iStack.iSP == iStack.iCell.Length - TotalSize(ItemsOf(all))
    {
      assert iStack.iCell[..][iStack.iSP..] == iStack.iCell[iStack.iSP..];
      StackHoldsBelow(iStack.iCell[..], iStack.iSP, own, all);
    }

    /** The pointer, seen from the frame of the running procedure. */
    lemma {:induction false} PointerBelowFrame()
      requires Running() && all != []
      ensures iStack.iSP == all[0].frame.iSP - TotalSize(own)
    {
      hide CStack.Valid, CGlobalsTbl.Valid, CModulesCollection.Valid, ItemsOf, HoldsAll, Linked, TotalSize;
      RunningIsSound();
    }

    lemma {:induction false} TopOfFrames()
      requires Sound()
      ensures depth <= |all| && iFrame == if depth == 0 then null else all[0].frame
    {
      LinkedDepth(all, depth);
    }

    /** The destructor of the innermost frame. */
    method DeleteFrame()
      requires Sound() && depth > 0
      modifies this`iFrame, this`iIP, this`all, this`depth
      modifies iGlobalTbl`flat, iGlobalTbl.iList, iModules`running, iModules.made
      ensures Sound()
      ensures all == old(all)[1..] && depth == old(depth) - 1
      ensures iIP == old(iFrame).iReturnIP
    {
      hide AllMade, Linked, TopFrame, GlobalsOf, ModulesOf, ItemsOf, TotalSize, StackHolds;
      hide CGlobalsTbl.Valid, CModulesCollection.Valid;
      Innermost(all, iStack.iCell.Length, depth);
      ghost var l := all[0];
      iGlobalTbl.RemoveGlobals(iFrame.iProcDef.iGlobals, l.cell, l.added, GlobalsOf(all[1..]));
      iModules.RunningAlive(iFrame.iModule);
      iModules.DecCount(iFrame.iModule);
      StackHoldsDrop(iStack.iCell[..], all);
      iIP := iFrame.iReturnIP;
      iFrame := iFrame.iPrevFrame;
      all := all[1..];
      depth := depth - 1;
    }

    /** Drops the operands of the innermost frame. */
    method ClearError()
      requires Sound() && depth > 0
      modifies this`own, this`iTrap, iStack
      ensures Running() && own == [] && !iTrap
      ensures all != [] && iStack.iSP == all[0].frame.iSP
    {
      hide AllMade, Linked, TopFrame, GlobalsOf, ModulesOf, ItemsOf, TotalSize;
      hide CGlobalsTbl.Valid, CModulesCollection.Valid;
      Innermost(all, iStack.iCell.Length, depth);
      assert iStack.iCell[..][iFrame.iSP..] == iStack.iCell[iFrame.iSP..];
      iStack.SetStackPtr(iFrame.iSP, ItemsOf(all));
      if roomKept {
        RoomCleared(all, iStack.iCell.Length);
      }
      own := [];
      assert own + ItemsOf(all) == ItemsOf(all);
      iTrap := false;
    }

    /** With TRAP set no frame goes. Otherwise frames go up to the nearest one
        with a handler, but never one that is evaluating an expression. */
    method ErrorHandler() returns (unhandled: bool, ghost popped: nat)
      requires Sound() && (iTrap ==> depth > 0)
      modifies this`iFrame, this`iIP, this`all, this`depth, this`own, this`iTrap, iStack
      modifies iGlobalTbl`flat, iGlobalTbl.iList, iModules`running, iModules.made
      ensures Sound() && !iTrap
      ensures popped <= old(depth) && popped <= |old(all)| && all == old(all)[popped..] && depth == old(depth) - popped
      ensures Passed(old(all), popped)
      ensures old(iTrap) ==> !unhandled && popped == 0 && iIP == old(iIP)
      ensures !unhandled ==> depth > 0 && Running() && own == [] && all != [] && iStack.iSP == all[0].frame.iSP
      ensures !unhandled && !old(iTrap) ==> all[0].iEvalNestCount == 0 && all[0].iOnErrIP == Some(iIP)
      ensures unhandled ==> depth > 0 ==> all != [] && all[0].iEvalNestCount != 0
      ensures unhandled ==> iIP == if popped > 0 then old(all)[popped - 1].frame.iReturnIP else old(iIP)
    {
      hide Sound, Running;
      popped := 0;
      assert all[0..] == all;
      TopOfFrames();
      if iTrap {
        ClearError();
        return false, 0;
      }
      while iFrame != null
        invariant Sound() && !iTrap
        invariant popped <= old(depth) && popped <= |old(all)| && all == old(all)[popped..] && depth == old(depth) - popped
        invariant Passed(old(all), popped)
        invariant iIP == if popped > 0 then old(all)[popped - 1].frame.iReturnIP else old(iIP)
        decreases depth
      {
        TopOfFrames();
        assert all[0] == old(all)[popped];
        if all[0].iEvalNestCount != 0 {
          break;
        }
        if all[0].iOnErrIP.Some? {
          iIP := all[0].iOnErrIP.value;
          ClearError();
          return false, popped;
        }
        DeleteFrame();
        popped := popped + 1;
      }
      TopOfFrames();
      unhandled := true;
    }

    // -------------------------------------------------------------- returning

    /** Deletes the frame and clears its arguments, and the name it was called by,
        off the stack. */
    method RemoveFrame()
      requires Running() && depth > 0 && own == []
      modifies this`iFrame, this`iIP, this`all, this`depth, this`own, iStack
      modifies iGlobalTbl`flat, iGlobalTbl.iList, iModules`running, iModules.made
      ensures Running()
      ensures all == old(all)[1..] && depth == old(depth) - 1 && own == old(all)[0].own
      ensures iIP == old(iFrame).iReturnIP && iStack.iSP >= old(iStack.iSP) + 4 >= KReserve + 4
    {
      hide Room, NamePart, Passable, InRange, StackOK;
      hide AllMade, Linked, GlobalsOf, ModulesOf, ItemsOf, TotalSize, StackHolds, Live.Block;
      hide CGlobalsTbl.Valid, CModulesCollection.Valid, CStack.Valid;
      RunningIsSound();
      Innermost(all, iStack.iCell.Length, depth);
      assert own + ItemsOf(all) == ItemsOf(all);
      var l := all[0];
      var byString := iFrame.iCalledByString;
      DeleteFrame();
      BlockSplit(l, ItemsOf(all));
      iStack.UnwindParams(l.args, NamePart(l.name) + (l.own + ItemsOf(all)));
      if byString {
        var name := iStack.PopString();
      }
      own := l.own;
      assert iStack.items == own + ItemsOf(all);
    }

    /** Lets the stack start again at the frame, below which the value stays
        where it is. */
    method PassOver() returns (pVal: int, sizeOfVal: nat)
      requires Running() && depth > 0 && |own| == 1
      modifies this`own, iStack
      ensures Running() && own == []
      ensures sizeOfVal == Size(old(own)[0]) && 0 <= pVal && pVal + sizeOfVal == iStack.iSP <= iStack.iCell.Length
      ensures Holds(iStack.iCell[pVal..pVal + sizeOfVal], old(own)[0])
    {
      hide AllMade, Linked, TopFrame, GlobalsOf, ModulesOf, ItemsOf, TotalSize, StackHolds, Live.Block, HoldsAll, Holds;
      hide CGlobalsTbl.Valid, CModulesCollection.Valid;
      pVal := iStack.StackPtr();
      Innermost(all, iStack.iCell.Length, depth);
      assert own == [own[0]] && iStack.iCell[..][pVal..] == iStack.iCell[pVal..];
      ValueOnTop(iStack.iCell[..], pVal, own[0], all);
      var sp := iFrame.iSP;
      sizeOfVal := sp - pVal;
      assert iStack.iCell[..][sp..] == iStack.iCell[sp..];
      assert iStack.iCell[..][pVal..sp] == iStack.iCell[pVal..sp];
      iStack.SetStackPtr(sp, ItemsOf(all));
      RoomWithout(own, all, []);
      assert own + [] == own;
      own := [];
      assert own + ItemsOf(all) == ItemsOf(all);
    }

    /** Without any test for room. */
    method PushCopy(pVal: int, sizeOfVal: nat, v: Value)
      requires Running() && 0 <= pVal && pVal + sizeOfVal <= iStack.iCell.Length && sizeOfVal <= iStack.iSP
      requires Holds(iStack.iCell[pVal..pVal + sizeOfVal], v)
      modifies this`own, this`roomKept, iStack, iStack.iCell
      ensures Running() && own == [v] + old(own)
      ensures roomKept == (old(roomKept) && FitsCaller(v, all, old(own)))
    {
      hide AllMade, Linked, TopFrame, GlobalsOf, ModulesOf, ItemsOf, TotalSize, StackHolds, Holds, HoldsAll;
      hide CGlobalsTbl.Valid, CModulesCollection.Valid, CStack.Valid, Room, FitsCaller;
      iStack.PushBytesFrom(pVal, sizeOfVal, v);
      RoomWithValue(v, all, own);
      roomKept := roomKept && FitsCaller(v, all, own);
      assert [v] + (own + ItemsOf(all)) == ([v] + own) + ItemsOf(all);
      own := [v] + own;
    }

    /** RETURN with a value: the value moves up over the arguments. Execute ends
        when there is no frame left. */
    method Return() returns (exit: bool)
      requires Running() && depth > 0 && |own| == 1
      modifies this`iFrame, this`iIP, this`all, this`depth, this`own, this`roomKept, iStack, iStack.iCell
      modifies iGlobalTbl`flat, iGlobalTbl.iList, iModules`running, iModules.made
      ensures Running()
      ensures all == old(all)[1..] && depth == old(depth) - 1 && own == old(own) + old(all)[0].own
      ensures iIP == old(iFrame).iReturnIP && exit == (depth == 0)
      ensures roomKept == (old(roomKept) && FitsCaller(old(own)[0], all, old(all)[0].own))
    {
      hide Running, Sound, Holds, FitsCaller;
      var v := own[0];
      var pVal, sizeOfVal := PassOver();
      RemoveFrame();
      PushCopy(pVal, sizeOfVal, v);
      RunningIsSound();
      TopOfFrames();
      exit := iFrame == null;
    }

    // ---------------------------------------------------------------- calling

    /** The table and the counts with one procedure more than there are frames. */
    ghost predicate Claimed(m: CModule, p: ProcDef, added: seq<TOplGlobal>, cell: int)
      reads this`all, iGlobalTbl, iGlobalTbl.iList, iModules, iModules.iModule, iModules.made
    {
      && iGlobalTbl.Valid() && iGlobalTbl.flat == added + GlobalsOf(all) && Added(added, p.iGlobals, cell)
      && iModules.Valid() && iModules.running == [m] + ModulesOf(all)
    }

    /** Counts the module, looks for room on the stack, allocates the data and
        adds the globals; all of it or nothing. */
    method Claim(m: CModule, p: ProcDef, faults: Faults) returns (ok: bool, ghost added: seq<TOplGlobal>)
      requires TableOK() && CountsOK() && m in iModules.listed
      modifies iGlobalTbl`flat, iGlobalTbl.iList, iGlobalTbl.iListMark, iModules`running, iModules.made
      ensures ok ==> Claimed(m, p, added, faults.cell) && Added(added, p.iGlobals, faults.cell)
      ensures !ok ==> TableOK() && CountsOK()
      ensures ok <==>
              && !faults.noProcedure && !faults.noCell
              && faults.globalsFailAt >= |p.iGlobals| && iStack.iSP - KReserve >= p.iMaxStack
    {
      hide GlobalsOf, ModulesOf, CGlobalsTbl.Valid, CModulesCollection.Valid, Added;
      iModules.RunningAlive(m);
      added := [];
      if faults.noProcedure {
        return false, added;
      }
      iModules.IncCountL(m);
      var free := iStack.FreeBytes();
      if free < p.iMaxStack || faults.noCell {
        iModules.DecCount(m);
        return false, added;
      }
      ok, added := iGlobalTbl.AddGlobalsL(p.iGlobals, faults.cell, faults.globalsFailAt);
      if !ok {
        iModules.DecCount(m);
      }
    }

    method Unclaim(m: CModule, p: ProcDef, ghost added: seq<TOplGlobal>, ghost cell: int)
      requires Claimed(m, p, added, cell)
      modifies iGlobalTbl`flat, iGlobalTbl.iList, iModules`running, iModules.made
      ensures TableOK() && CountsOK()
    {
      hide GlobalsOf, ModulesOf, CGlobalsTbl.Valid, CModulesCollection.Valid, Added;
      iGlobalTbl.RemoveGlobals(p.iGlobals, cell, added, GlobalsOf(all));
      iModules.RunningAlive(m);
      iModules.DecCount(m);
    }

    /** The new frame becomes the running one. */
    method SetFrame(frame: CFrame, l: Live)
      requires FramesOK() && Claimed(l.frame.iModule, l.frame.iProcDef, l.added, l.cell) && frame == l.frame
      requires iStack.Valid() && iStack.items == l.Block() + ItemsOf(all) && l.Made(iStack.iSP)
      requires frame.iPrevFrame == iFrame && (roomKept ==> Room(all, l.own))
      requires iStack.iSP == iStack.iCell.Length - TotalSize(l.Block()) - TotalSize(ItemsOf(all))
      modifies this`iFrame, this`all, this`depth, this`own
      ensures Running() && own == [] && depth == old(depth) + 1 && all == [l] + old(all)
    {
      hide AllMade, Linked, TopFrame, GlobalsOf, ModulesOf, ItemsOf, TotalSize, Live.Made, Live.Block;
      hide CGlobalsTbl.Valid, CModulesCollection.Valid, CStack.Valid, Added;
      FrameAdded(l, all, iStack.iCell.Length, depth);
      RoomAfterCall(l, all, iStack.iSP);
      iFrame, all, depth, own := frame, [l] + all, depth + 1, [];
      assert own + ItemsOf(all) == ItemsOf(all);
    }

    method TakeParams(p: ProcDef, args: seq<Value>, name: Option<seq<int>>, rest: seq<Value>, tableFailAt: nat)
      returns (r: ParamResult, table: seq<int>)
      requires iStack.Valid() && iStack.items == own + ItemsOf(all)
      requires own == CallBlock(args) + (NamePart(name) + rest) && Passable(args)
      modifies iStack
      ensures r == NoTable <==> TableEnds(p.iParamList, args, tableFailAt)
      ensures r == NumArg <==> (p.iParamList == [] || tableFailAt > 0) && |p.iParamList| != |args|
      ensures r == Fits <==> TableFits(p.iParamList, tableFailAt) && Matches(p.iParamList, args)
      ensures r == Fits ==> iStack.Valid() && iStack.iSP == old(iStack.iSP) && iStack.items == old(iStack.items)
      ensures r == Fits ==> table == ParamTable(iStack.iSP + 4, args)
    {
      hide *;
      BlockOf(args, name, rest, ItemsOf(all));
      r, table := GetParamsL(iStack, p.iParamList, tableFailAt, args, NamePart(name) + (rest + ItemsOf(all)));
    }

    /** The frame of a procedure. Whatever fails, the globals, the counts and the
        frames are as before; the stack pointer may have moved. */
    method ConstructL(m: CModule, p: ProcDef, args: seq<Value>, name: Option<seq<int>>, rest: seq<Value>, faults: Faults)
      returns (err: int)
      requires Running() && own == CallBlock(args) + (NamePart(name) + rest) && Passable(args)
      requires m in iModules.listed
      modifies this`iFrame, this`all, this`depth, this`own, iStack
      modifies iGlobalTbl`flat, iGlobalTbl.iList, iGlobalTbl.iListMark, iModules`running, iModules.made
      ensures err == KErrNone ==>
                && Running() && own == [] && depth == old(depth) + 1
                && |all| == |old(all)| + 1 && all[1..] == old(all) && Enters(all[0], m, p, args, name, rest)
                && all[0].frame.iReturnIP == iIP && fresh(all[0].frame) && iStack.iSP == old(iStack.iSP)
      ensures err != KErrNone ==> Sound() && all == old(all) && depth == old(depth) && own == old(own)
      ensures err <= KErrNone
      ensures err == KErrNone <==>
              && !faults.noProcedure && !faults.noCell && TableFits(p.iParamList, faults.tableFailAt)
              && faults.globalsFailAt >= |p.iGlobals| && old(iStack.iSP) - KReserve >= p.iMaxStack
              && Matches(p.iParamList, args)
    {
      hide Linked, TopFrame;
      hide GlobalsOf, ModulesOf, ItemsOf, TotalSize, CallBlock, Passable, Matches, FramesOK, NamePart;
      hide StackOK, TableOK, CountsOK, Claimed, CStack.Valid, Added, ParamTable, RoomOK, Room, RoomBelow;
      RunningIsSound();
      RoomBelowCall(args, name, rest);
      var iSP := iStack.StackPtr();
      var ok, added := Claim(m, p, faults);
      if !ok {
        return KErrNoMemory;
      }
      var r, table := TakeParams(p, args, name, rest, faults.tableFailAt);
      if r != Fits {
        Unclaim(m, p, added, faults.cell);
        return if r == NoTable then KErrNoMemory else if r == NumArg then KOplErrNumArg else KOplErrTypeViol;
      }
      var frame := new CFrame(iFrame, iIP, iSP, m, p, name.Some?, table);
      SetFrame(frame, Live(frame, None, 0, [], args, name, rest, added, faults.cell));
      err := KErrNone;
    }

    lemma {:induction false} RoomBelowCall(args: seq<Value>, name: Option<seq<int>>, rest: seq<Value>)
      requires RoomOK() && own == CallBlock(args) + (NamePart(name) + rest)
      ensures roomKept ==> Room(all, rest)
    {
      assert own == (CallBlock(args) + NamePart(name)) + rest;
      RoomWithout(CallBlock(args) + NamePart(name), all, rest);
    }

    /** Another handler, nest count or table for the running frame. */
    method SetState(l: Live)
      requires all != [] && SameButState(all[0], l)
      modifies this`all
      ensures all == [l] + old(all)[1..]
      ensures old(Running()) ==> Running()
      ensures old(Sound()) ==> Sound()
    {
      hide AllMade, Linked, TopFrame, ItemsOf, GlobalsOf, ModulesOf, TotalSize, HoldsAll;
      hide CStack.Valid, CGlobalsTbl.Valid, CModulesCollection.Valid;
      StateChanged(all, l, iStack.iCell.Length, depth);
      all := [l] + all[1..];
    }

    /** The globals the procedure refers to, looked up from the innermost frame
        outwards. What is missing is an error of the new frame itself, and so is a
        lack of memory for the table. */
    method FinishConstructionL(qCode: int, tableFailAt: nat) returns (err: int)
      requires Running() && all != [] && TableFits(all[0].frame.iProcDef.iParamList, tableFailAt)
      modifies this`iIP, this`all
      ensures Running() && all != [] && all[1..] == old(all)[1..] && SameButState(old(all)[0], all[0])
      ensures all[0].iEvalNestCount == old(all)[0].iEvalNestCount && all[0].iOnErrIP == old(all)[0].iOnErrIP
      ensures var p := all[0].frame.iProcDef;
              && (err == KErrNone <==> Resolved(p.iExternals, all) && !TableFails(p, tableFailAt))
              && (err == KErrNone ==> iIP == qCode && Binds(all[0].iExternTbl, p.iExternals, all))
              && (err == KErrNoMemory ==> TableFails(p, tableFailAt))
              && (err == KOplErrUndef ==> !Resolved(p.iExternals, all))
      ensures err != KErrNone ==> (err == KOplErrUndef || err == KErrNoMemory) && iIP == old(iIP)
    {
      hide Running, Resolved, Binds, TableFails, TableFits;
      ghost var was := all;
      var p := all[0].frame.iProcDef;
      var table;
      err, table := GetExternsL(p, tableFailAt);
      SetState(all[0].(iExternTbl := table));
      assert all[0].frame == was[0].frame;
      SameGlobals(was, all[0], p.iExternals, table);
      if err == KErrNone {
        iIP := qCode;
      }
    }

    /** The entries for the externals go behind those for the parameters, each into
        memory of its own; without parameters the table has yet to be made. */
    method GetExternsL(p: ProcDef, tableFailAt: nat) returns (err: int, table: seq<int>)
      requires Running() && TableFits(p.iParamList, tableFailAt)
      ensures err == KErrNone || err == KOplErrUndef || err == KErrNoMemory
      ensures err == KErrNone <==> Resolved(p.iExternals, all) && !TableFails(p, tableFailAt)
      ensures err == KErrNone ==> Binds(table, p.iExternals, all)
      ensures err == KErrNoMemory ==> TableFails(p, tableFailAt)
      ensures err == KOplErrUndef ==> !Resolved(p.iExternals, all)
    {
      hide FramesOK, CountsOK, CStack.Valid, CGlobalsTbl.Valid, ItemsOf, GlobalsOf;
      var externals := p.iExternals;
      table := [];
      if externals != [] && p.iParamList == [] && tableFailAt == 0 {
        return KErrNoMemory, table;
      }
      var globalNotFound := false;
      var allocations := 1 + |p.iParamList|;
      var ii := 0;
      while ii < |externals|
        invariant 0 <= ii <= |externals|
        invariant globalNotFound <==> !Resolved(externals[..ii], all)
        invariant !globalNotFound ==> Binds(table, externals[..ii], all) && allocations == 1 + |p.iParamList| + ii
        invariant externals != [] ==> allocations <= tableFailAt
        invariant allocations <= 1 + |p.iParamList| + ii
      {
        var ptr := iGlobalTbl.Find(externals[ii].0, externals[ii].1);
        if ptr == None {
          globalNotFound := true;
        } else {
          if allocations == tableFailAt {
            return KErrNoMemory, table;
          }
          allocations := allocations + 1;
          table := table + [ptr.value];
        }
        OneMoreExternal(externals, ii, table, all);
        ii := ii + 1;
      }
      assert externals[..ii] == externals;
      err := if globalNotFound then KOplErrUndef else KErrNone;
    }

    // --------------------------------------------------------------- operands

    method PushOnStack(v: Value)
      requires iStack.Valid() && InRange(v) && !v.Str? && iStack.iSP >= KSlack
      modifies iStack, iStack.iCell
      ensures iStack.Valid() && iStack.items == [v] + old(iStack.items) && iStack.iSP == old(iStack.iSP) - Size(v)
      ensures SameFrom(old(iStack.iCell[..]), iStack.iCell[..], old(iStack.iSP))
    {
      assert 0 <= iStack.iSP <= iStack.iCell.Length;
      ghost var cell, sp := iStack.iCell[..], iStack.iSP;
      hide CStack.Valid, SameFrom;
      assert cell[sp..] == iStack.iCell[sp..];
      match v {
        case Int16(i) => iStack.PushInt16(i);
        case Int32(l) => iStack.PushInt32(l);
        case Real(bits) => iStack.PushReal64(bits);
        case Ref(address) => iStack.PushRef(address);
      }
      SameSlices(iStack.iCell, cell, sp);
    }

    /** A value of fixed size. */
    method PushFixed(v: Value)
      requires Running() && InRange(v) && !v.Str? && iStack.iSP >= KSlack
      modifies this`own, iStack, iStack.iCell
      ensures Running() && own == [v] + old(own) && iStack.iSP == old(iStack.iSP) - Size(v)
      ensures SameFrom(old(iStack.iCell[..]), iStack.iCell[..], old(iStack.iSP))
    {
      hide FramesOK, TableOK, CountsOK, CStack.Valid, ItemsOf, SameFrom, Room;
      PushOnStack(v);
      ConcatAssoc([v], own, ItemsOf(all));
      RoomWithValue(v, all, own);
      own := [v] + own;
    }

    /** A string, if it leaves the running procedure the room it may need. */
    method PushString(s: seq<int>) returns (err: int)
      requires Running() && InRange(Str(s)) && iFrame != null
      modifies this`own, iStack, iStack.iCell
      ensures err == KErrNone || err == KErrNoMemory
      ensures err == KErrNone ==> Running() && own == [Str(s)] + old(own)
      ensures iStack.iSP == old(iStack.iSP) - Size(Str(s))
      ensures err == KErrNone <==> iStack.iSP >= KReserve + iFrame.iProcDef.iMaxStack
      ensures err != KErrNone ==> Sound() && own == old(own)
      ensures SameFrom(old(iStack.iCell[..]), iStack.iCell[..], old(iStack.iSP))
    {
      hide FramesOK, TableOK, CountsOK, CStack.Valid, ItemsOf, StackHolds;
      RunningIsSound();
      ghost var sp, cell := iStack.iSP, iStack.iCell[..];
      KnownPosition(iStack);
      assert cell[sp..] == iStack.iCell[sp..];
      StackHoldsBelow(cell, sp, own, all);
      var ok := iStack.PushText(s, iFrame.iProcDef.iMaxStack);
      SameSlices(iStack.iCell, cell, sp);
      SameTop(cell, iStack.iCell[..], sp, own, all);
      if !ok {
        return KErrNoMemory;
      }
      ConcatAssoc([Str(s)], own, ItemsOf(all));
      StringLeavesRoom(Str(s));
      own := [Str(s)] + own;
      err := KErrNone;
    }

    lemma {:induction false} StringLeavesRoom(v: Value)
      requires FramesOK() && RoomOK() && iFrame != null && v.Str? && iStack.iSP >= KReserve + iFrame.iProcDef.iMaxStack
      requires iStack.iSP == iStack.iCell.Length - TotalSize(own) - TotalSize(ItemsOf(all)) - Size(v)
      ensures roomKept ==> Room(all, [v] + own)
    {
      hide TotalSize, ItemsOf;
      LinkedDepth(all, depth);
      RoomWithString(v, all, own, iStack.iCell.Length, iStack.iSP);
    }

    method PushValue(v: Value) returns (err: int)
      requires Running() && InRange(v) && (v.Str? ==> iFrame != null) && iStack.iSP >= KSlack
      modifies this`own, iStack, iStack.iCell
      ensures err == KErrNone || (err == KErrNoMemory && v.Str?)
      ensures v.Str? ==> (err == KErrNone <==> old(iStack.iSP) - Size(v) >= KReserve + iFrame.iProcDef.iMaxStack)
      ensures err == KErrNone ==> Running() && own == [v] + old(own)
      ensures err != KErrNone ==> Sound() && own == old(own)
    {
      hide Running, Sound;
      err := KErrNone;
      if v.Str? {
        err := PushString(v.s);
      } else {
        PushFixed(v);
      }
    }

    /** The newest operand goes. */
    method Drop()
      requires Running() && own != []
      modifies this`own, iStack
      ensures Running() && own == old(own)[1..]
      ensures iStack.iSP == old(iStack.iSP) + Size(old(own)[0])
    {
      hide FramesOK, TableOK, CountsOK, CStack.Valid, ItemsOf, Room;
      TailOfConcat(own, ItemsOf(all));
      RoomWithout([own[0]], all, own[1..]);
      assert own == [own[0]] + own[1..];
      PopFromStack(own[0]);
      own := own[1..];
    }

    method PopFromStack(v: Value)
      requires iStack.Valid() && iStack.items != [] && iStack.items[0] == v
      modifies iStack
      ensures iStack.Valid() && iStack.items == old(iStack.items)[1..]
      ensures iStack.iSP == old(iStack.iSP) + Size(v)
    {
      hide CStack.Valid;
      match v {
        case Int16(_) => var i := iStack.PopInt16();
        case Int32(_) => var l := iStack.PopInt32();
        case Real(_) => var r := iStack.PopReal64();
        case Str(_) => var d := iStack.PopString();
        case Ref(_) => var p := iStack.PopPtr();
      }
    }

    // ------------------------------------------------------ the call opcodes

    /** One more frame, or everything as it was. */
    twostate predicate Called(err: int, entered: bool, args: seq<Value>, name: Option<seq<int>>, rest: seq<Value>)
      reads this, iStack, iStack.iCell, iGlobalTbl, iGlobalTbl.iList, iModules, iModules.iModule, iModules.made
    {
      && err <= KErrNone && (err == KErrNone ==> entered)
      && (entered ==>
            && Running() && own == [] && depth == old(depth) + 1
            && |all| == |old(all)| + 1 && all[1..] == old(all)
            && all[0].args == args && all[0].name == name && all[0].own == rest
            && all[0].frame == iFrame && all[0].iEvalNestCount == 0 && all[0].iOnErrIP == None
            && all[0].frame.iReturnIP == old(iIP) && fresh(all[0].frame))
      && (!entered ==> Sound() && all == old(all) && depth == old(depth) && iIP == old(iIP))
      && (entered && err != KErrNone ==> (err == KOplErrUndef || err == KErrNoMemory) && iIP == old(iIP))
    }

    /** The arguments and their number, and the name below them, are on the stack:
        a new frame runs p. */
    method Enter(m: CModule, p: ProcDef, args: seq<Value>, name: Option<seq<int>>, rest: seq<Value>, qCode: int, faults: Faults)
      returns (err: int, entered: bool)
      requires Running() && own == CallBlock(args) + (NamePart(name) + rest) && Passable(args)
      requires m in iModules.listed
      modifies this`iFrame, this`iIP, this`all, this`depth, this`own, iStack
      modifies iGlobalTbl`flat, iGlobalTbl.iList, iGlobalTbl.iListMark, iModules`running, iModules.made
      ensures Called(err, entered, args, name, rest)
      ensures entered ==> iFrame != null && iFrame.iModule == m && iFrame.iProcDef == p
      ensures entered <==> Accepts(p, args, faults, old(iStack.iSP))
      ensures entered ==> iStack.iSP == old(iStack.iSP)
      ensures err == KErrNone ==> Binds(all[0].iExternTbl, p.iExternals, all) && iIP == qCode
      ensures entered ==> (err == KErrNone <==> Resolved(p.iExternals, all) && !TableFails(p, faults.tableFailAt))
      ensures entered ==> (err == KOplErrUndef ==> !Resolved(p.iExternals, all))
    {
      hide TableFails, TableFits;
      hide FramesOK, TableOK, CountsOK, StackOK, CStack.Valid, ItemsOf, CallBlock, NamePart, Passable, Matches, Resolved, Binds;
      RunningIsSound();
      entered := false;
      if faults.noFrame {
        return KErrNoMemory, false;
      }
      err := ConstructL(m, p, args, name, rest, faults);
      if err != KErrNone {
        return;
      }
      entered := true;
      RunningIsSound();
      TopOfFrames();
      err := FinishConstructionL(qCode, faults.tableFailAt);
    }

    method FindProcedure(aProcName: Name) returns (target: Option<(CModule, ProcDef)>)
      requires CountsOK()
      ensures target == FirstWith(iModules.listed, aProcName)
      ensures target.Some? ==> target.value.0 in iModules.listed
    {
      target := iModules.FindProcedure(aProcName);
    }

    /** A call to a procedure named in the code. */
    method RunProcedure(aProcName: Name, args: seq<Value>, rest: seq<Value>, qCode: int, faults: Faults)
      returns (err: int, entered: bool)
      requires Running() && own == ArgBlock(args) + rest && Passable(args) && iStack.iSP >= KSlack
      modifies this`iFrame, this`iIP, this`all, this`depth, this`own, iStack, iStack.iCell
      modifies iGlobalTbl`flat, iGlobalTbl.iList, iGlobalTbl.iListMark, iModules`running, iModules.made
      ensures Called(err, entered, args, None, rest)
      ensures FirstWith(iModules.listed, aProcName) == None ==> err == KOplErrNoProc
      ensures entered ==> iFrame != null
      ensures entered ==> FirstWith(iModules.listed, aProcName) == Some((iFrame.iModule, iFrame.iProcDef))
      ensures var target := FirstWith(iModules.listed, aProcName);
              entered <==> target.Some? && Accepts(target.value.1, args, faults, old(iStack.iSP) - 4)
      ensures entered ==> iStack.iSP == old(iStack.iSP) - 4
      ensures entered ==>
        (err == KErrNone <==> Resolved(iFrame.iProcDef.iExternals, all) && !TableFails(iFrame.iProcDef, faults.tableFailAt))
      ensures err == KErrNone ==> Binds(all[0].iExternTbl, iFrame.iProcDef.iExternals, all) && iIP == qCode
    {
      hide FramesOK, TableOK, CountsOK, StackOK, CStack.Valid, ItemsOf, ArgBlock, Resolved, Binds;
      RunningIsSound();
      var target := FindProcedure(aProcName);
      if target == None {
        return KOplErrNoProc, false;
      }
      PushFixed(Int16(|args|));
      assert own == CallBlock(args) + (NamePart(None) + rest);
      err, entered := Enter(target.value.0, target.value.1, args, None, rest, qCode, faults);
    }

    /** The text of the name, which lies below the arguments; the stack pointer
        moves there and back. */
    method NameBelow(args: seq<Value>, name: seq<int>, rest: seq<Value>) returns (procName: seq<int>)
      requires Running() && own == CallBlock(args) + (NamePart(Some(name)) + rest) && Passable(args)
      modifies iStack
      ensures Running() && procName == name
      ensures iStack.iSP == old(iStack.iSP)
    {
      hide FramesOK, TableOK, CountsOK, StackOK, CStack.Valid, ItemsOf, CallBlock;
      KnownPosition(iStack);
      ghost var items := iStack.items;
      var tempSP := iStack.StackPtr();
      BlockOf(args, Some(name), rest, ItemsOf(all));
      iStack.UnwindParams(args, NamePart(Some(name)) + (rest + ItemsOf(all)));
      var d := iStack.PopString();
      procName := Text(iStack.iCell[..], d);
      iStack.SetStackPtr(tempSP, items);
    }

    /** A call by name: folded is the name in capitals, without a type. A name
        that already ends in a type, or no name, is no procedure. */
    method DoCallProcByStringExpr(args: seq<Value>, name: seq<int>, rest: seq<Value>, folded: Name, aType: TText,
                                  qCode: int, faults: Faults)
      returns (err: int, entered: bool)
      requires Running() && own == CallBlock(args) + (NamePart(Some(name)) + rest) && Passable(args)
      requires |folded| == |name|
      modifies this`iFrame, this`iIP, this`all, this`depth, this`own, iStack
      modifies iGlobalTbl`flat, iGlobalTbl.iList, iGlobalTbl.iListMark, iModules`running, iModules.made
      ensures Called(err, entered, args, Some(name), rest)
      ensures name == [] || EndsInType(folded) ==> err == KOplErrNoProc && !entered
      ensures FirstWith(iModules.listed, Typed(folded, aType)) == None ==> err == KOplErrNoProc && !entered
      ensures err == KErrNone ==> iIP == qCode
      ensures var target := FirstWith(iModules.listed, Typed(folded, aType));
              entered <==> name != [] && !EndsInType(folded) && target.Some? && Accepts(target.value.1, args, faults, old(iStack.iSP))
      ensures entered ==> iStack.iSP == old(iStack.iSP)
      ensures entered ==> iFrame != null
      ensures entered ==> FirstWith(iModules.listed, Typed(folded, aType)) == Some((iFrame.iModule, iFrame.iProcDef))
      ensures entered ==>
        (err == KErrNone <==> Resolved(iFrame.iProcDef.iExternals, all) && !TableFails(iFrame.iProcDef, faults.tableFailAt))
    {
      hide FramesOK, TableOK, CountsOK, StackOK, CStack.Valid, ItemsOf, CallBlock, Resolved, NamePart;
      RunningIsSound();
      var procName := NameBelow(args, name, rest);
      RunningIsSound();
      if |procName| == 0 || EndsInType(folded) {
        return KOplErrNoProc, false;
      }
      var target := FindProcedure(Typed(folded, aType));
      if target == None {
        return KOplErrNoProc, false;
      }
      err, entered := Enter(target.value.0, target.value.1, args, Some(name), rest, qCode, faults);
    }

    // ------------------------------------------------------ nested execution

    /** The running code has its operands above what was there before it. */
    ghost predicate Nested(c: Context)
      reads this`all, this`depth, this`own
    {
      Attached(all, depth, c) && (|all| == |c.base| ==> c.baseDepth > 0 && HasTail(own, c.floor))
    }

    /** ErrorHandler inside an Execute: a handler is found in a frame that this
        Execute made, or all of those go and no other. */
    method Handle(ghost c: Context) returns (unhandled: bool)
      requires Sound() && Attached(all, depth, c) && depth > 0 && (iTrap ==> |all| > |c.base|)
      modifies this`iFrame, this`iIP, this`all, this`depth, this`own, this`iTrap, iStack
      modifies iGlobalTbl`flat, iGlobalTbl.iList, iModules`running, iModules.made
      ensures !iTrap && Tail(old(all), all)
      ensures !old(iTrap) ==> (unhandled <==> Passed(old(all), |old(all)| - |c.base|))
      ensures old(iTrap) ==> !unhandled
      ensures !unhandled ==> Running() && Nested(c) && |all| > |c.base|
      ensures !unhandled ==> HandlerFound(old(all), old(depth), old(iTrap), old(iIP), c)
      ensures !unhandled ==> own == [] && iStack.iSP == all[0].frame.iSP
      ensures unhandled ==> Sound() && all == c.base && depth == c.baseDepth
      ensures unhandled && c.baseDepth == 0 ==> iIP == c.retIP && FloorHolds(iStack.iCell[..], c)
    {
      hide Running, Sound, FloorHolds, Passed, Attached;
      TopOfFrames();
      TopAttached(all, depth, c);
      if c.baseDepth == 0 {
        GroundHolds(c);
      }
      ghost var popped;
      ghost var was, deep := all, depth;
      unhandled, popped := ErrorHandler();
      PoppedFrames(was, deep, c, popped);
      TopOfFrames();
      if !unhandled {
        TopAttached(all, depth, c);
        HasHandler(was, all, popped, c);
      } else {
        AllGone(was, deep, c, popped);
      }
    }

    /** The frames above the nearest handler have gone, and its code goes on; under
        TRAP nothing has. */
    ghost predicate HandlerFound(was: seq<Live>, deep: nat, trap: bool, ip: int, c: Context)
      reads this`all, this`depth, this`iIP
    {
      && all != [] && |c.base| < |all| <= |was|
      && var k := |was| - |all|;
         && all == was[k..] && depth + k == deep
         && if trap then k == 0 && iIP == ip
            else Passed(was, k) && all[0].iEvalNestCount == 0 && all[0].iOnErrIP == Some(iIP)
    }

    lemma {:induction false} GroundHolds(c: Context)
      requires Sound() && Attached(all, depth, c) && |all| > |c.base| && c.baseDepth == 0
      ensures FloorHolds(iStack.iCell[..], c)
    {
      hide AllMade, Linked, TableOK, CountsOK, HoldsAll, ItemsOf, TotalSize, StackHolds;
      var k := |all| - |c.base| - 1;
      assert all[k + 1..] == c.base;
      LowerHolds(iStack.iCell[..], all, k);
    }

    /** One opcode of the Execute started on c: it goes on, it leaves with an error
        from a sound state, or it ends the run with one value on top of what was
        there before. */
    ghost predicate StepDone(r: StepResult, c: Context)
      reads this, iStack, iStack.iCell, iGlobalTbl, iGlobalTbl.iList, iModules, iModules.iModule, iModules.made
    {
      match r
      case Continue => Running() && Nested(c)
      case Leave(err) =>
        err < KErrNone && Sound() && Attached(all, depth, c) && depth > 0 && (iTrap ==> |all| > |c.base|)
      case Exit =>
        && Running() && all == c.base && depth == c.baseDepth
        && |own| == |c.floor| + 1 && own[1..] == c.floor && (c.baseDepth == 0 ==> iIP == c.retIP)
        && (c.baseDepth > 0 ==> own[0].Real?)
      case Stop(out) =>
        || (out == FrameLost && Leaked(c.base)) || (CutShort(out) && Sound() && StillThere(all, c.base))
        || (out == Stopped && Running() && Nested(c) && !iTrap && !iInCallback)
    }

    /** The table and the counts have a frame too many: one that is not chained to
        any that runs, so that nothing will ever remove it. */
    ghost predicate Leaked(base: seq<Live>)
      reads this`all, iGlobalTbl, iGlobalTbl.iList, iModules, iModules.iModule, iModules.made
    {
      TableOK() && CountsOK() && StillThere(all, base) && |all| > |base|
    }

    /** The end of the Execute started on c. Frames, and in a callback the code
        address, are again those it interrupted. Success leaves one value; failure
        nothing but what was there, in a callback also on the stack. */
    ghost predicate Ended(out: Outcome, c: Context)
      reads this, iStack, iStack.iCell, iGlobalTbl, iGlobalTbl.iList, iModules, iModules.iModule, iModules.made
    {
      match out
      case Finished =>
        && Running() && all == c.base && depth == c.baseDepth
        && |own| == |c.floor| + 1 && own[1..] == c.floor && (c.baseDepth == 0 ==> iIP == c.retIP)
        && (c.baseDepth > 0 ==> own[0].Real?)
      case Failed(err) =>
        && err < KErrNone && Sound() && all == c.base && depth == c.baseDepth
        && (c.baseDepth == 0 ==> iIP == c.retIP && FloorHolds(iStack.iCell[..], c))
      case Stopped => Running() && Nested(c) && !iTrap && !iInCallback
      case FrameLost => Leaked(c.base)
      case _ => Sound() && StillThere(all, c.base)
    }

    lemma {:induction false} NestedHasFrame(c: Context)
      requires Running() && Nested(c)
      ensures depth > 0 && iFrame != null && all != [] && iFrame == all[0].frame
    {
      RunningIsSound();
      TopOfFrames();
    }

    /** An opcode or function that leaves a value. Fixed sizes are not offered
        where they would not fit into the cell. */
    method PushStep(v: Value, ghost c: Context) returns (r: StepResult)
      requires Running() && Nested(c) && InRange(v) && all != []
      modifies this`own, iStack, iStack.iCell
      ensures r == Continue ==> Running() && Nested(c)
      ensures r == Continue ==> own == if v.Str? || old(iStack.iSP) >= KSlack then [v] + old(own) else old(own)
      ensures r != Continue ==> Sound() && OperandsOnly(old(Now()), Now())
      ensures r == if v.Str? && old(iStack.iSP) - Size(v) < KReserve + old(all)[0].frame.iProcDef.iMaxStack
                   then Leave(KErrNoMemory) else Continue
    {
      hide Running, Sound, Grounded;
      NestedHasFrame(c);
      HasTailPush(v, own, c.floor);
      if v.Str? {
        var err := PushString(v.s);
        if err != KErrNone {
          return Leave(err);
        }
      } else if iStack.iSP >= KSlack {
        PushFixed(v);
      }
      r := Continue;
    }

    /** An operand of the running code is used up. */
    method DropStep(c: Context)
      requires Running() && Nested(c)
      modifies this`own, iStack
      ensures Running() && Nested(c)
      ensures own == if old(Operands(all, own, c)) > 0 then old(own)[1..] else old(own)
      ensures iStack.iSP == old(iStack.iSP) + if old(Operands(all, own, c)) > 0 then Size(old(own)[0]) else 0
    {
      hide Running, Sound, Grounded, HasTail;
      if Operands(all, own, c) > 0 {
        HasTailDrop(own, c.floor);
        Drop();
      }
    }

    /** An opcode that leaves, after it has popped some of its operands. */
    method FailStep(err: int, pops: nat, c: Context) returns (r: StepResult)
      requires Running() && Nested(c) && !iTrap && err < KErrNone
      modifies this`own, iStack
      ensures StepDone(r, c) && r == Leave(err)
    {
      hide Running, Sound, Attached, HasTail;
      var k := 0;
      while k < pops
        invariant Running() && Nested(c)
      {
        DropStep(c);
        k := k + 1;
      }
      NestedHasFrame(c);
      RunningIsSound();
      r := Leave(err);
    }

    method LoadModule(fileName: Name, file: Option<seq<ProcDef>>) returns (err: int)
      requires CountsOK()
      modifies iModules`listed, iModules`made, iModules`iNumModulesLoaded, iModules.iModule
      ensures CountsOK() && err <= KErrNone
      ensures old(iModules.made) <= iModules.made && fresh(iModules.made - old(iModules.made))
      ensures err == KErrNone <==> !Named(old(iModules.listed), fileName) && |old(iModules.listed)| < KMaxModules && file.Some?
      ensures err == KErrNone ==>
                && Named(iModules.listed, fileName) && |iModules.listed| == |old(iModules.listed)| + 1
                && iModules.listed[..|old(iModules.listed)|] == old(iModules.listed)
                && iModules.listed[|old(iModules.listed)|].iOpoName == fileName
                && iModules.listed[|old(iModules.listed)|].iProcs == file.value
      ensures err != KErrNone ==> iModules.listed == old(iModules.listed)
    {
      hide ModulesOf, CModulesCollection.Valid, Distinct;
      var loaded := iModules.LoadModuleL(fileName, file);
      match loaded {
        case Loaded => err := KErrNone;
        case ModLoad => err := KOplErrModLoad;
        case MaxLoad => err := KOplErrMaxLoad;
        case CannotLoad => err := KErrNotFound;
      }
    }

    method UnloadModule(fileName: Name) returns (err: int)
      requires CountsOK()
      modifies iModules`listed, iModules`iNumModulesLoaded, iModules.iModule, iModules.made
      ensures CountsOK() && err <= KErrNone
      ensures err == KErrNone <==> Named(old(iModules.listed), fileName)
      ensures err == KErrNone ==> !Named(iModules.listed, fileName) && OneGone(old(iModules.listed), fileName, iModules.listed)
      ensures err != KErrNone ==> iModules.listed == old(iModules.listed)
    {
      hide ModulesOf, CModulesCollection.Valid, Without, Named;
      ghost var was := iModules.listed;
      iModules.DistinctNames();
      var found, at := iModules.UnloadModule(fileName);
      if found {
        WithoutMembers(was, at);
      }
      err := if found then KErrNone else KOplErrModNotLoaded;
    }

    /** LOADM: the name is popped, the file may be missing. */
    method LoadStep(fileName: Name, file: Option<seq<ProcDef>>, c: Context) returns (err: int)
      requires Running() && Nested(c)
      modifies this`own, iStack, iModules`listed, iModules`made, iModules`iNumModulesLoaded, iModules.iModule
      ensures Running() && Nested(c) && err <= KErrNone && all == old(all)
      ensures own == if old(Operands(all, own, c)) > 0 then old(own)[1..] else old(own)
      ensures err == KErrNone <==> !Named(old(iModules.listed), fileName) && |old(iModules.listed)| < KMaxModules && file.Some?
      ensures err == KErrNone ==>
                && |iModules.listed| == |old(iModules.listed)| + 1
                && iModules.listed[..|old(iModules.listed)|] == old(iModules.listed)
                && iModules.listed[|old(iModules.listed)|].iOpoName == fileName
                && iModules.listed[|old(iModules.listed)|].iProcs == file.value
      ensures err != KErrNone ==> iModules.listed == old(iModules.listed)
      ensures old(iModules.made) <= iModules.made && fresh(iModules.made - old(iModules.made))
    {
      hide FramesOK, TableOK, CountsOK, Grounded, HasTail, ItemsOf, CStack.Valid;
      DropStep(c);
      err := LoadModule(fileName, file);
    }

    /** UNLOADM: frames may still be running the module. */
    method UnloadStep(fileName: Name, c: Context) returns (err: int)
      requires Running() && Nested(c)
      modifies this`own, iStack, iModules`listed, iModules`iNumModulesLoaded, iModules.iModule, iModules.made
      ensures Running() && Nested(c) && err <= KErrNone && all == old(all)
      ensures own == if old(Operands(all, own, c)) > 0 then old(own)[1..] else old(own)
      ensures err == KErrNone <==> Named(old(iModules.listed), fileName)
      ensures err == KErrNone ==> OneGone(old(iModules.listed), fileName, iModules.listed)
      ensures err != KErrNone ==> iModules.listed == old(iModules.listed)
    {
      hide OneGone;
      hide FramesOK, TableOK, CountsOK, Grounded, HasTail, ItemsOf, CStack.Valid;
      DropStep(c);
      err := UnloadModule(fileName);
    }

    /** ONERR and ONERR OFF. */
    method OnErrStep(handler: Option<int>, c: Context)
      requires Running() && Nested(c) && |all| > |c.base|
      modifies this`all
      ensures Running() && Nested(c) && |all| > |c.base| && Moves(old(all), all, own, iIP)
      ensures all == [old(all)[0].(iOnErrIP := handler)] + old(all)[1..]
    {
      hide Running;
      ghost var was := all;
      SetState(all[0].(iOnErrIP := handler));
      TopChanged(was, all[0], depth, c);
    }

    lemma {:induction false} ArgsAreThere(n: nat, c: Context)
      requires Nested(c) && CanCall(all, own, iStack.iSP, n, c)
      ensures |CallArgs(all, own, n, c)| == n && Passable(CallArgs(all, own, n, c))
      ensures own == ArgBlock(CallArgs(all, own, n, c)) + BelowArgs(all, own, n, c)
      ensures |all| == |c.base| ==> HasTail(BelowArgs(all, own, n, c), c.floor)
    {
      var k, split := Operands(all, own, c), SplitArgs(own[..Operands(all, own, c)], n).value;
      assert k <= |own| && (|all| == |c.base| ==> HasTail(own, c.floor) && k == |own| - |c.floor|);
      hide ArgBlock, SplitArgs, Passable, HasTail, Attached;
      ArgsOnTop(own, k, n);
      FloorKept(own, k, split.1, c.floor);
    }

    /** The arguments of a call with n of them, if the operands on top are that. */
    method TakeArgs(n: nat, c: Context) returns (args: Option<seq<Value>>, rest: seq<Value>)
      requires Nested(c)
      ensures args.Some? <==> CanCall(all, own, iStack.iSP, n, c)
      ensures args.Some? ==> args.value == CallArgs(all, own, n, c) && rest == BelowArgs(all, own, n, c)
      ensures args.Some? ==> |args.value| == n < 0x8000 && own == ArgBlock(args.value) + rest
      ensures args.Some? ==> Passable(args.value) && iStack.iSP >= KSlack
      ensures args.Some? ==> |all| == |c.base| ==> HasTail(rest, c.floor)
    {
      hide SplitArgs, ArgBlock, CallArgs, BelowArgs, Passable, HasTail, Nested;
      if !CanCall(all, own, iStack.iSP, n, c) {
        return None, [];
      }
      ArgsAreThere(n, c);
      args, rest := Some(CallArgs(all, own, n, c)), BelowArgs(all, own, n, c);
    }

    /** A call. Offered when the operands on top are n arguments with their types. */
    method CallStep(aProcName: Name, n: nat, qCode: int, faults: Faults, c: Context) returns (r: StepResult)
      requires Running() && Nested(c) && !iTrap
      modifies this`iFrame, this`iIP, this`all, this`depth, this`own, iStack, iStack.iCell
      modifies iGlobalTbl`flat, iGlobalTbl.iList, iGlobalTbl.iListMark, iModules`running, iModules.made
      ensures StepDone(r, c) && r != Exit && !r.Stop?
      ensures r == Continue ==> Moves(old(all), all, own, iIP)
      ensures r.Leave? ==> Near(old(all), all)
      ensures !old(CanCall(all, own, iStack.iSP, n, c)) ==> r == Continue && all == old(all) && own == old(own)
      ensures !old(CanCall(all, own, iStack.iSP, n, c)) ==> Now() == old(Now())
      ensures old(CanCall(all, own, iStack.iSP, n, c)) ==>
                CallDone(FirstWith(iModules.listed, aProcName), old(CallArgs(all, own, n, c)), None, old(BelowArgs(all, own, n, c)),
                         qCode, faults, r, old(Now()), Now())
    {
      hide Running, Sound, Attached, ArgBlock, Passable, CanCall, CallArgs, BelowArgs, StepDone, Near, Moves, CallDone;
      hide FirstWith, HasTail, SplitArgs, Accepts, Unresolved;
      NestedHasFrame(c);
      var args, rest := TakeArgs(n, c);
      if args == None {
        Offered(c);
        return Continue;
      }
      r := CallWith(aProcName, args.value, rest, qCode, faults, c);
    }

    /** The arguments are on top. */
    method CallWith(aProcName: Name, args: seq<Value>, rest: seq<Value>, qCode: int, faults: Faults, c: Context)
      returns (r: StepResult)
      requires Running() && Nested(c) && !iTrap && own == ArgBlock(args) + rest && Passable(args)
      requires iStack.iSP >= KSlack && (|all| == |c.base| ==> HasTail(rest, c.floor))
      modifies this`iFrame, this`iIP, this`all, this`depth, this`own, iStack, iStack.iCell
      modifies iGlobalTbl`flat, iGlobalTbl.iList, iGlobalTbl.iListMark, iModules`running, iModules.made
      ensures StepDone(r, c) && r != Exit && !r.Stop?
      ensures r == Continue ==> Moves(old(all), all, own, iIP)
      ensures r.Leave? ==> Near(old(all), all)
      ensures CallDone(FirstWith(iModules.listed, aProcName), args, None, rest, qCode, faults, r, old(Now()), Now())
    {
      hide TopFrame, TotalSize, ParamTable, Linked, Binds;
      hide Running, Sound, Attached, HasTail, Resolved, FirstWith, ArgBlock, Passable, Accepts, Unresolved, TableFails;
      hide StepDone, Leaked, StillThere, Near, Moves;
      NestedHasFrame(c);
      ghost var was, deep := all, depth;
      var err, entered := RunProcedure(aProcName, args, rest, qCode, faults);
      if entered {
        FrameAttached(all, was, deep, rest, c);
        ResolvedHere();
      }
      NewFrame(was, all, entered, own, iIP);
      r := AfterCall(err, entered, c);
    }

    /** A call by name: the name lies below the arguments. */
    method CallByNameStep(folded: Name, aType: TText, n: nat, qCode: int, faults: Faults, c: Context) returns (r: StepResult)
      requires Running() && Nested(c) && !iTrap
      modifies this`iFrame, this`iIP, this`all, this`depth, this`own, iStack, iStack.iCell
      modifies iGlobalTbl`flat, iGlobalTbl.iList, iGlobalTbl.iListMark, iModules`running, iModules.made
      ensures StepDone(r, c) && r != Exit && !r.Stop?
      ensures r == Continue ==> Moves(old(all), all, own, iIP)
      ensures r.Leave? ==> Near(old(all), all)
      ensures var below := old(BelowArgs(all, own, n, c));
              if !old(CanCall(all, own, iStack.iSP, n, c)) || !NameOffered(old(all), below, folded, c)
              then r == Continue && Now() == old(Now())
              else CallDone(ByName(iModules.listed, folded, aType), old(CallArgs(all, own, n, c)), Some(below[0].s), below[1..],
                            qCode, faults, r, old(Now()), Now())
    {
      hide Running, Sound, Attached, ArgBlock, Passable, CanCall, CallArgs, BelowArgs, StepDone, Near, Moves, CallDone;
      hide ByName, HasTail, SplitArgs;
      NestedHasFrame(c);
      var args, below := TakeArgs(n, c);
      if args == None || !NameOffered(all, below, folded, c) {
        Offered(c);
        return Continue;
      }
      HasTailDrop(below, c.floor);
      assert below == [Str(below[0].s)] + below[1..];
      r := CallNamed(args.value, below[0].s, below[1..], folded, aType, qCode, faults, c);
    }

    /** The arguments and the name below them are on top. */
    method CallNamed(args: seq<Value>, name: seq<int>, rest: seq<Value>, folded: Name, aType: TText, qCode: int, faults: Faults,
                     c: Context)
      returns (r: StepResult)
      requires Running() && Nested(c) && !iTrap && own == ArgBlock(args) + ([Str(name)] + rest) && Passable(args)
      requires iStack.iSP >= KSlack && |folded| == |name| && (|all| == |c.base| ==> HasTail(rest, c.floor))
      modifies this`iFrame, this`iIP, this`all, this`depth, this`own, iStack, iStack.iCell
      modifies iGlobalTbl`flat, iGlobalTbl.iList, iGlobalTbl.iListMark, iModules`running, iModules.made
      ensures StepDone(r, c) && r != Exit && !r.Stop?
      ensures r == Continue ==> Moves(old(all), all, own, iIP)
      ensures r.Leave? ==> Near(old(all), all)
      ensures CallDone(ByName(iModules.listed, folded, aType), args, Some(name), rest, qCode, faults, r, old(Now()), Now())
    {
      hide TopFrame, TotalSize, Typed, ParamTable;
      hide Linked;
      hide Running, Sound, Attached, HasTail, Resolved, FirstWith, ArgBlock, Passable, Accepts, Unresolved, TableFails, EndsInType;
      hide StepDone, Leaked, StillThere, Near, Moves;
      NestedHasFrame(c);
      ghost var was, deep := all, depth;
      CountFits(args);
      PushFixed(Int16(|args|));
      NameOnTop(own, args, name, rest);
      var err, entered := DoCallProcByStringExpr(args, name, rest, folded, aType, qCode, faults);
      if entered {
        FrameAttached(all, was, deep, rest, c);
        ResolvedHere();
      }
      NewFrame(was, all, entered, own, iIP);
      r := AfterCall(err, entered, c);
    }

    /** RETURN with a value. */
    method ReturnStep(c: Context) returns (r: StepResult)
      requires Running() && Nested(c)
      modifies this`iFrame, this`iIP, this`all, this`depth, this`own, this`roomKept, iStack, iStack.iCell
      modifies iGlobalTbl`flat, iGlobalTbl.iList, iModules`running, iModules.made
      ensures StepDone(r, c) && !r.Leave? && !r.Stop?
      ensures r == Continue ==> Moves(old(all), all, own, iIP)
      ensures |old(all)| > |c.base| && |old(own)| == 1 ==>
                && all == old(all)[1..] && own == old(own) + old(all)[0].own && (r == Exit <==> depth == 0)
                && roomKept == (old(roomKept) && FitsCaller(old(own)[0], all, old(all)[0].own))
      ensures |old(all)| <= |c.base| || |old(own)| != 1 ==> r == Continue && Now() == old(Now())
      ensures |old(all)| > |c.base| && |old(own)| == 1 ==> iIP == old(all)[0].frame.iReturnIP
    {
      hide Running, Sound, Leaked, StillThere, Attached, HasTail;
      NestedHasFrame(c);
      if |all| <= |c.base| || |own| != 1 {
        return Continue;
      }
      assert own == [own[0]];
      ghost var was, deep, v := all, depth, own[0];
      var exit := Return();
      AfterReturn(was, deep, v, c);
      r := if exit then Exit else Continue;
    }

    /** The end of a procedure without RETURN gives zero or an empty string. A
        string needs the frame of the caller, to keep its room on the stack. */
    method ZeroReturn(zero: Value) returns (err: int, exit: bool)
      requires Running() && depth > 0 && own == [] && all != [] && IsZero(zero) && (zero.Str? ==> depth > 1)
      modifies this`iFrame, this`iIP, this`all, this`depth, this`own, iStack, iStack.iCell
      modifies iGlobalTbl`flat, iGlobalTbl.iList, iModules`running, iModules.made
      ensures all == old(all)[1..] && depth == old(depth) - 1 && exit == (depth == 0)
      ensures iIP == old(all)[0].frame.iReturnIP
      ensures err == KErrNone ==> Running() && own == [zero] + old(all)[0].own
      ensures err != KErrNone ==> err == KErrNoMemory && zero.Str? && Sound()
      ensures err != KErrNone <==> zero.Str? && NoRoomForEmpty(all, old(all)[0].own)
    {
      hide Running, Sound, IsZero, NoRoomForEmpty;
      RunningIsSound();
      TopOfFrames();
      RemoveFrame();
      RunningIsSound();
      TopOfFrames();
      exit := iFrame == null;
      err := PushZero(zero);
    }

    method PushZero(zero: Value) returns (err: int)
      requires Running() && IsZero(zero) && (zero.Str? ==> iFrame != null && all != [] && iFrame == all[0].frame)
      requires iStack.iSP >= KSlack
      modifies this`own, iStack, iStack.iCell
      ensures err == KErrNone ==> Running() && own == [zero] + old(own)
      ensures err != KErrNone ==> err == KErrNoMemory && zero.Str? && Sound() && own == old(own)
      ensures err != KErrNone <==> zero.Str? && NoRoomForEmpty(all, old(own))
    {
      assert zero.Str? ==> zero == Str([]);
      hide Running, Sound, IsZero, Size, TotalSize;
      if zero.Str? {
        PointerBelowFrame();
      }
      err := PushValue(zero);
    }

    method ZeroReturnStep(zero: Value, c: Context) returns (r: StepResult)
      requires Running() && Nested(c) && !iTrap && IsZero(zero)
      modifies this`iFrame, this`iIP, this`all, this`depth, this`own, iStack, iStack.iCell
      modifies iGlobalTbl`flat, iGlobalTbl.iList, iModules`running, iModules.made
      ensures StepDone(r, c) && !r.Stop?
      ensures r == Continue ==> Moves(old(all), all, own, iIP)
      ensures r.Leave? ==> Near(old(all), all)
      ensures |old(all)| > |c.base| && old(own) == [] && (zero.Str? ==> old(depth) > 1) ==>
                && all == old(all)[1..] && (r.Leave? ==> r == Leave(KErrNoMemory) && zero.Str?)
                && iIP == old(all)[0].frame.iReturnIP && (r.Leave? <==> zero.Str? && NoRoomForEmpty(all, old(all)[0].own))
                && (!r.Leave? ==> own == [zero] + old(all)[0].own && (r == Exit <==> depth == 0))
      ensures |old(all)| <= |c.base| || old(own) != [] || (zero.Str? && old(depth) <= 1) ==> r == Continue && Now() == old(Now())
    {
      hide Running, Sound, Attached, HasTail, IsZero, Leaked, StillThere, Near, Moves, NoRoomForEmpty;
      NestedHasFrame(c);
      MovesNot(all, own, iIP);
      if |all| <= |c.base| || own != [] || (zero.Str? && depth == 1) {
        return Continue;
      }
      ghost var was, deep := all, depth;
      var err, exit := ZeroReturn(zero);
      ValueReturned(was, deep, zero, c);
      JustGone(was);
      if err != KErrNone {
        return Leave(err);
      }
      AfterReturn(was, deep, zero, c);
      r := if exit then Exit else Continue;
    }

    lemma {:induction false} AfterReturn(was: seq<Live>, deep: nat, v: Value, c: Context)
      requires Attached(was, deep, c) && |was| > |c.base| && deep > 0
      requires Running() && all == was[1..] && depth == deep - 1 && own == [v] + was[0].own && iIP == was[0].frame.iReturnIP
      ensures StepDone(if depth == 0 then Exit else Continue, c)
      ensures Moves(was, all, own, iIP)
    {
      hide Running, Sound, Attached, HasTail, Leaked, StillThere, Moves, Near;
      ReturnMoves(was, own, iIP);
      ValueReturned(was, deep, v, c);
    }

    /** The end of an expression: its value is all it leaves. */
    method EvalEndStep(c: Context) returns (r: StepResult)
      requires Running() && Nested(c)
      ensures StepDone(r, c) && !r.Leave? && !r.Stop?
      ensures r == Continue ==> Moves(all, all, own, iIP)
      ensures r == Exit <==> |all| <= |c.base| && |own| == |c.floor| + 1 && own[0].Real?
    {
      if |all| <= |c.base| && |own| == |c.floor| + 1 && own[0].Real? {
        TailFull(all, c.base);
        r := Exit;
      } else {
        r := Continue;
      }
    }

    lemma {:induction false} Offered(c: Context)
      requires Running() && Nested(c)
      ensures StepDone(Continue, c) && Moves(all, all, own, iIP)
    {
      NestedHasFrame(c);
    }

    method AfterCall(err: int, entered: bool, ghost c: Context) returns (r: StepResult)
      requires if entered then Running() && |all| > |c.base| else Sound()
      requires Attached(all, depth, c) && depth > 0 && !iTrap && err <= KErrNone && (err == KErrNone ==> entered)
      ensures StepDone(r, c) && r == if err == KErrNone then Continue else Leave(err)
    {
      hide Sound, Running, Attached;
      if entered {
        RunningIsSound();
      }
      r := if err == KErrNone then Continue else Leave(err);
    }

    // ---------------------------------------------------------------- callbacks

    /** Remembers where the stack was, then pushes the name. There may be no memory
        for the entry, and then nothing has happened. When there is no room for the
        name, above that which the running procedure may need, the entry stays
        behind. */
    method InitCallbackL(aProcName: seq<int>, noEntry: bool) returns (err: int)
      requires Running() && InRange(Str(aProcName)) && iFrame != null
      modifies this`own, this`iCallbackInfoArray, this`strandedEntries, iStack, iStack.iCell
      ensures var fits := old(iStack.iSP) - Size(Str(aProcName)) >= KReserve + iFrame.iProcDef.iMaxStack;
              && (err == KErrNone <==> !noEntry && fits)
              && strandedEntries == old(strandedEntries) + if !noEntry && !fits then 1 else 0
      ensures err == KErrNone ==> Running() && own == [Str(aProcName)] + old(own) && iStack.iSP >= KReserve
      ensures err != KErrNone ==> err == KErrNoMemory && Sound()
      ensures noEntry ==>
        && Running() && own == old(own) && iStack.iSP == old(iStack.iSP) && iCallbackInfoArray == old(iCallbackInfoArray)
      ensures !noEntry ==>
        && iCallbackInfoArray == old(iCallbackInfoArray) + [SCallbackInfo(old(iStack.iSP), 0)]
        && iStack.iSP == old(iStack.iSP) - Size(Str(aProcName))
      ensures SameFrom(old(iStack.iCell[..]), iStack.iCell[..], old(iStack.iSP))
    {
      hide Running, Sound, Size, InRange, Linked, TopFrame, ItemsOf, CountsOK, CGlobalsTbl.Valid, Live.Made, Passable;
      PointerInCell();
      RunningIsSound();
      hide Running, Sound, Size, InRange, SameFrom;
      SameCell(iStack.iCell[..], iStack.iSP);
      if noEntry {
        return KErrNoMemory;
      }
      var sp := iStack.StackPtr();
      iCallbackInfoArray := iCallbackInfoArray + [SCallbackInfo(sp, 0)];
      err := PushString(aProcName);
      if err != KErrNone {
        strandedEntries := strandedEntries + 1;
      }
    }

    /** Back to where the last callback began, and forget it. */
    method ResetStack(ghost values: seq<Value>)
      requires iCallbackInfoArray != []
      modifies this`iCallbackInfoArray, iStack
      ensures iCallbackInfoArray == old(iCallbackInfoArray[..|iCallbackInfoArray| - 1])
      ensures iStack.iSP == old(iCallbackInfoArray[|iCallbackInfoArray| - 1].iStackPtr) && iStack.items == values
    {
      var last := |iCallbackInfoArray| - 1;
      iStack.MoveTo(iCallbackInfoArray[last].iStackPtr, values);
      iCallbackInfoArray := iCallbackInfoArray[..last];
    }

    /** A parameter and its type, as long as there is room for them and for the
        number of parameters; otherwise back to where the callback began, where
        these values lie. */
    method PushParamL(v: Value, ghost values: seq<Value>) returns (err: int)
      requires Running() && InRange(v) && !v.Ref? && iFrame != null && iCallbackInfoArray != []
      modifies this`own, this`iCallbackInfoArray, iStack, iStack.iCell
      ensures err == KErrNone ==> Running() && own == [Int16(TypeOf(v)), v] + old(own) && iStack.iSP >= KReserve + 4
      ensures err == KErrNone ==> iCallbackInfoArray == OneMoreParam(old(iCallbackInfoArray))
      ensures err == KErrNone <==> ParamFits(old(iStack.iSP), v, iFrame.iProcDef.iMaxStack)
      ensures err == KErrNone ==> iStack.iSP == old(iStack.iSP) - Size(v) - 4
      ensures err != KErrNone ==> err == KErrNoMemory && Sound()
      ensures err != KErrNone ==> iCallbackInfoArray == old(iCallbackInfoArray[..|iCallbackInfoArray| - 1])
      ensures err != KErrNone ==> iStack.iSP == old(iCallbackInfoArray[|iCallbackInfoArray| - 1].iStackPtr)
      ensures err != KErrNone ==> iStack.items == values
      ensures SameFrom(old(iStack.iCell[..]), iStack.iCell[..], old(iStack.iSP))
      ensures err == KErrNone ==> iStack.iSP <= old(iStack.iSP)
    {
      PointerInCell();
      hide Running, Sound, Size, InRange, TypeOf, OneMoreParam, SameFrom, ParamFits;
      OneMoreKept(iCallbackInfoArray);
      iCallbackInfoArray := OneMoreParam(iCallbackInfoArray);
      err := PushValueAndType(v);
      if err != KErrNone {
        ResetStack(values);
      }
    }

    method PushValueAndType(v: Value) returns (err: int)
      requires Running() && InRange(v) && !v.Ref? && iFrame != null
      modifies this`own, iStack, iStack.iCell
      ensures err == KErrNone ==> Running() && own == [Int16(TypeOf(v)), v] + old(own) && iStack.iSP >= KReserve + 4
      ensures err == KErrNone <==> ParamFits(old(iStack.iSP), v, iFrame.iProcDef.iMaxStack)
      ensures err == KErrNone ==> iStack.iSP == old(iStack.iSP) - Size(v) - 4
      ensures err != KErrNone ==> err == KErrNoMemory && Sound()
      ensures iStack.iSP <= old(iStack.iSP)
      ensures SameFrom(old(iStack.iCell[..]), iStack.iCell[..], old(iStack.iSP))
    {
      PointerInCell();
      assert Size(Int16(TypeOf(v))) == 4;
      hide Running, Sound, Size, InRange, TypeOf, SameFrom, ParamFits;
      ghost var sp, cell := iStack.iSP, iStack.iCell[..];
      err := PushWithRoom(v);
      if err != KErrNone {
        return;
      }
      ParamSize(v);
      ghost var sp1, mid := iStack.iSP, iStack.iCell[..];
      PushFixed(Int16(TypeOf(v)));
      SameFurtherUp(cell, mid, iStack.iCell[..], sp1, sp);
    }

    /** A value that leaves room for its type and the number of parameters. */
    method PushWithRoom(v: Value) returns (err: int)
      requires Running() && InRange(v) && !v.Ref? && iFrame != null
      modifies this`own, iStack, iStack.iCell
      ensures err == KErrNone ==> Running() && own == [v] + old(own) && iStack.iSP >= KReserve + 8
      ensures err == KErrNone <==> ParamFits(old(iStack.iSP), v, iFrame.iProcDef.iMaxStack)
      ensures err == KErrNone ==> iStack.iSP == old(iStack.iSP) - Size(v)
      ensures err != KErrNone ==> err == KErrNoMemory && Sound()
      ensures iStack.iSP <= old(iStack.iSP)
      ensures SameFrom(old(iStack.iCell[..]), iStack.iCell[..], old(iStack.iSP))
    {
      PointerInCell();
      RunningIsSound();
      hide Running, Sound, Size, InRange, SameFrom;
      if v.Str? {
        err := PushStringWithRoom(v.s);
        return;
      }
      SameCell(iStack.iCell[..], iStack.iSP);
      var free := iStack.FreeBytes();
      if free < (if v.Real? then 16 else 12) {
        return KErrNoMemory;
      }
      ParamSize(v);
      PushFixed(v);
      err := KErrNone;
    }

    method PushStringWithRoom(s: seq<int>) returns (err: int)
      requires Running() && InRange(Str(s)) && iFrame != null
      modifies this`own, iStack, iStack.iCell
      ensures err == KErrNone ==> Running() && own == [Str(s)] + old(own) && iStack.iSP >= KReserve + 8
      ensures err == KErrNone <==> ParamFits(old(iStack.iSP), Str(s), iFrame.iProcDef.iMaxStack)
      ensures err == KErrNone ==> iStack.iSP == old(iStack.iSP) - Size(Str(s))
      ensures err != KErrNone ==> err == KErrNoMemory && Sound()
      ensures iStack.iSP <= old(iStack.iSP)
      ensures SameFrom(old(iStack.iCell[..]), iStack.iCell[..], old(iStack.iSP))
    {
      PointerInCell();
      hide Running, Sound, Size, InRange, SameFrom;
      err := PushString(s);
      if err == KErrNone {
        RunningIsSound();
        var left := iStack.FreeBytes();
        err := if left < 8 then KErrNoMemory else KErrNone;
      }
    }

    lemma {:induction false} PointerInCell()
      requires Running()
      ensures 0 <= iStack.iSP <= iStack.iCell.Length
    {
    }

    /** What an OPX does before CallProcedure: the name, then the parameters, the
        first one first. If there is no memory for the entry, or a parameter does not
        fit, everything is as before; if the name does not, an entry and a lower
        pointer are left behind. */
    method PrepareCallback(aProcName: seq<int>, args: seq<Value>, noEntry: bool) returns (err: int)
      requires Running() && InRange(Str(aProcName)) && iFrame != null && Passable(args) && AllInRange(args)
      modifies this`own, this`iCallbackInfoArray, this`strandedEntries, iStack, iStack.iCell
      ensures err == KErrNone || (err == KErrNoMemory && Sound())
      ensures strandedEntries == old(strandedEntries)
                + if noEntry || old(iStack.iSP) - Size(Str(aProcName)) >= KReserve + iFrame.iProcDef.iMaxStack then 0 else 1
      ensures args == [] ==> (err == KErrNone <==> !noEntry && strandedEntries == old(strandedEntries))
      ensures err == KErrNone <==>
                && !noEntry && NameFits(old(iStack.iSP), aProcName, iFrame.iProcDef.iMaxStack)
                && ParamsFit(old(iStack.iSP) - Size(Str(aProcName)), args, iFrame.iProcDef.iMaxStack)
      ensures err == KErrNone ==> iStack.iSP == Prepared(old(iStack.iSP), aProcName, args)
      ensures noEntry ==> err != KErrNone
      ensures err == KErrNone ==> strandedEntries == old(strandedEntries)
      ensures err == KErrNone ==> Running() && own == ArgBlock(args) + ([Str(aProcName)] + old(own)) && iStack.iSP >= KReserve
      ensures err == KErrNone ==>
                iCallbackInfoArray == old(iCallbackInfoArray) + [SCallbackInfo(old(iStack.iSP), |args|)]
      ensures err != KErrNone && strandedEntries == old(strandedEntries) ==>
                && Running() && own == old(own) && iStack.iSP == old(iStack.iSP)
                && iCallbackInfoArray == old(iCallbackInfoArray)
      ensures strandedEntries > old(strandedEntries) ==>
                && Sound() && iStack.iSP < old(iStack.iSP)
                && iCallbackInfoArray == old(iCallbackInfoArray) + [SCallbackInfo(old(iStack.iSP), 0)]
    {
      hide TopFrame, NamePart, Size, InRange, TypeOf, SameFrom, Running, StackHolds, Added, Live.Block, Live.Made;
      NoParams([], iFrame.iProcDef.iMaxStack);
      assert args == [] ==> ParamsFit(iStack.iSP - Size(Str(aProcName)), args, iFrame.iProcDef.iMaxStack);
      EntryWithParams(iCallbackInfoArray, iStack.iSP, |args|);
      hide Running, Sound, ArgBlock, Passable, AllInRange, Size, InRange, SameFrom, ParamsFit, TotalSize, ItemsOf, HoldsAll;
      hide WithParams, Room;
      ghost var sp, cell := iStack.iSP, iStack.iCell[..];
      var before := own;
      ghost var values := before + ItemsOf(all);
      TopHolds(values);
      err := InitCallbackL(aProcName, noEntry);
      if err != KErrNone {
        return;
      }
      err := PushParamsOrNone(args, before, values, cell, sp);
    }

    /** The parameters on top of the name; or the operands and the pointer from
        before the name are back. */
    method PushParamsOrNone(args: seq<Value>, before: seq<Value>, ghost values: seq<Value>, ghost cell: seq<byte>, ghost sp: nat)
      returns (err: int)
      requires Running() && iFrame != null && Passable(args) && AllInRange(args) && iStack.iSP >= KReserve
      requires iCallbackInfoArray != [] && iCallbackInfoArray[|iCallbackInfoArray| - 1] == SCallbackInfo(sp, 0)
      requires iStack.iSP <= sp <= |cell| == iStack.iCell.Length && values == before + ItemsOf(all)
      requires SameFrom(cell, iStack.iCell[..], sp) && HoldsAll(cell[sp..], values) && (roomKept ==> Room(all, before))
      modifies this`own, this`iCallbackInfoArray, iStack, iStack.iCell
      ensures err == KErrNone || err == KErrNoMemory
      ensures err == KErrNone <==> ParamsFit(old(iStack.iSP), args, iFrame.iProcDef.iMaxStack)
      ensures err == KErrNone ==> Running() && own == ArgBlock(args) + old(own) && iStack.iSP >= KReserve
      ensures err == KErrNone ==> iStack.iSP == old(iStack.iSP) - TotalSize(ArgBlock(args))
      ensures err == KErrNone ==> iCallbackInfoArray == WithParams(old(iCallbackInfoArray), |args|)
      ensures err != KErrNone ==> Running() && Sound() && own == before && iStack.iSP == sp
      ensures err != KErrNone ==> iCallbackInfoArray == old(iCallbackInfoArray[..|iCallbackInfoArray| - 1])
    {
      hide Running, Sound, ArgBlock, Passable, AllInRange, SameFrom, ParamsFit, TotalSize, HoldsAll, ItemsOf, Room;
      PointerInCell();
      ghost var sp1, mid := iStack.iSP, iStack.iCell[..];
      err := PushParams(args, values);
      SameFurtherUp(cell, mid, iStack.iCell[..], sp1, sp);
      if err != KErrNone {
        own := before;
        BackToRunning(cell, sp);
        RunningIsSound();
      }
    }

    method PushParams(args: seq<Value>, ghost values: seq<Value>) returns (err: int)
      requires Running() && iFrame != null && Passable(args) && AllInRange(args) && iStack.iSP >= KReserve
      requires iCallbackInfoArray != [] && iCallbackInfoArray[|iCallbackInfoArray| - 1].iParamCount == 0
      modifies this`own, this`iCallbackInfoArray, iStack, iStack.iCell
      ensures err == KErrNone || err == KErrNoMemory
      ensures err == KErrNone <==> ParamsFit(old(iStack.iSP), args, iFrame.iProcDef.iMaxStack)
      ensures err == KErrNone ==> iStack.iSP == old(iStack.iSP) - TotalSize(ArgBlock(args))
      ensures err == KErrNone ==> Running() && own == ArgBlock(args) + old(own) && iStack.iSP >= KReserve
      ensures err == KErrNone ==> iCallbackInfoArray == WithParams(old(iCallbackInfoArray), |args|)
      ensures err != KErrNone ==> Sound() && iStack.items == values
      ensures err != KErrNone ==> iStack.iSP == old(iCallbackInfoArray[|iCallbackInfoArray| - 1].iStackPtr)
      ensures err != KErrNone ==> iCallbackInfoArray == old(iCallbackInfoArray[..|iCallbackInfoArray| - 1])
      ensures SameFrom(old(iStack.iCell[..]), iStack.iCell[..], old(iStack.iSP))
    {
      hide Running, Sound, TopFrame, Room, CallBlock, FramesOK, CGlobalsTbl.Valid, CModulesCollection.Valid;
      PointerInCell();
      SameCell(iStack.iCell[..], iStack.iSP);
      hide Running, Sound, ArgBlock, Passable, AllInRange, SameFrom, ParamsFit, ParamFits, TotalSize, Size;
      var maxStack := iFrame.iProcDef.iMaxStack;
      NoParams(args, maxStack);
      ghost var was, sp, cell, below := iCallbackInfoArray, iStack.iSP, iStack.iCell[..], own;
      err := KErrNone;
      var i := |args|;
      NoArgs(args[i..], below);
      while i > 0
        invariant 0 <= i <= |args| && err == KErrNone && Running() && KReserve <= iStack.iSP <= sp
        invariant own == ArgBlock(args[i..]) + below
        invariant iCallbackInfoArray == WithParams(was, |args| - i)
        invariant ParamsFit(sp, args[i..], maxStack) && iStack.iSP == sp - TotalSize(ArgBlock(args[i..]))
        invariant SameFrom(cell, iStack.iCell[..], sp)
      {
        i := i - 1;
        ArgBlockStep(args, i, below);
        ArgOK(args, i);
        OneParamMore(sp, args, i, maxStack);
        LastParamsFit(sp, args, i, maxStack);
        ghost var sp1, mid := iStack.iSP, iStack.iCell[..];
        err := PushParamL(args[i], values);
        SameFurtherUp(cell, mid, iStack.iCell[..], sp1, sp);
        if err != KErrNone {
          return;
        }
      }
      assert args[0..] == args;
    }

    lemma {:induction false} NoParams(args: seq<Value>, maxStack: nat)
      ensures args[|args|..] == [] && ArgBlock([]) == [] && TotalSize([]) == 0 && ParamsFit(iStack.iSP, [], maxStack)
    {
    }

    lemma {:induction false} TopHolds(values: seq<Value>)
      requires Running() && values == own + ItemsOf(all)
      ensures 0 <= iStack.iSP <= iStack.iCell.Length && HoldsAll(iStack.iCell[..][iStack.iSP..], values) && RoomOK()
    {
      hide HoldsAll, ItemsOf, FramesOK, TableOK, CountsOK;
      assert iStack.iCell[..][iStack.iSP..] == iStack.iCell[iStack.iSP..];
    }

    /** The pointer is back where these operands were on top. */
    lemma {:induction false} BackToRunning(cell: seq<byte>, sp: nat)
      requires Sound() && iStack.iSP == sp <= |cell| == iStack.iCell.Length && iStack.items == own + ItemsOf(all) && RoomOK()
      requires SameFrom(cell, iStack.iCell[..], sp) && HoldsAll(cell[sp..], own + ItemsOf(all))
      ensures Running()
    {
      hide HoldsAll, ItemsOf, FramesOK, TableOK, CountsOK, StackHolds;
      assert iStack.iCell[iStack.iSP..] == iStack.iCell[..][sp..];
    }

    /** SetFrame(NULL): what is called from here on has no caller to go back to. */
    method Detach()
      requires Running()
      modifies this`iFrame, this`depth
      ensures Running() && iFrame == null && depth == 0
    {
      hide AllMade, TableOK, CountsOK, CStack.Valid, ItemsOf;
      iFrame, depth := null, 0;
    }

    /** SetFrame(iCurrentFrame) */
    method Reattach(current: CFrame?, deep: nat)
      requires depth == 0 && Linked(all, deep) && current == TopFrame(all, deep)
      modifies this`iFrame, this`depth
      ensures iFrame == current && depth == deep
      ensures old(Running()) ==> Running()
      ensures old(Sound()) ==> Sound()
    {
      hide AllMade, TableOK, CountsOK, StackOK, CStack.Valid, ItemsOf;
      iFrame, depth := current, deep;
    }

    /** What lies below newer operands is there. */
    lemma {:induction false} FloorOfRunning(newer: seq<Value>, c: Context)
      requires Running() && own == newer + c.floor && c.base == all
      ensures FloorHolds(iStack.iCell[..], c)
      ensures iStack.iSP == iStack.iCell.Length - TotalSize(newer) - TotalSize(c.floor) - TotalSize(ItemsOf(all))
    {
      hide AllMade, TableOK, CountsOK, ItemsOf, HoldsAll, TotalSize;
      RunningIsSound();
      FloorFromTop(iStack.iCell[..], iStack.iSP, newer, c);
    }

    /** The procedure of a callback is found, and nothing stands in the way of its
        frame. */
    ghost predicate GetsFrame(args: seq<Value>, name: seq<int>, folded: Name, aType: TText, faults: Faults)
      reads iModules`listed, iStack`iSP
    {
      Traces.GetsFrame(iModules.listed, iStack.iSP, args, name, folded, aType, faults)
    }

    /** And then an external has no global, or there is no memory for the table of
        externals: a frame that nobody will remove. */
    ghost predicate LosesFrame(args: seq<Value>, name: seq<int>, folded: Name, aType: TText, faults: Faults)
      reads this`all, iModules`listed, iStack`iSP
    {
      Traces.LosesFrame(all, iModules.listed, iStack.iSP, args, name, folded, aType, faults)
    }

    /** The procedure of a callback starts, without a caller. Afterwards either it
        runs, or nothing has changed but the stack pointer, or a procedure
        without its externals has a frame that nobody will remove. */
    method EnterCallback(args: seq<Value>, name: seq<int>, c: Context, folded: Name, aType: TText, qCode: int, faults: Faults)
      returns (err: int, entered: bool)
      requires Running() && own == ArgBlock(args) + ([Str(name)] + c.floor) && Passable(args)
      requires iStack.iSP >= KSlack && |folded| == |name| && iCallbackInfoArray != []
      requires c.base == all && c.baseDepth == 0 && c.retIP == iIP
      requires iCallbackInfoArray[|iCallbackInfoArray| - 1].iParamCount == |args|
      modifies this`iFrame, this`iIP, this`all, this`depth, this`own, iStack, iStack.iCell
      modifies iGlobalTbl`flat, iGlobalTbl.iList, iGlobalTbl.iListMark, iModules`running, iModules.made
      ensures err == KErrNone ==> entered
      ensures entered ==> Running() && all != [] && all[1..] == c.base && Attached(all, depth, c) && depth == 1
      ensures entered <==> old(GetsFrame(args, name, folded, aType, faults))
      ensures entered && err != KErrNone <==> old(LosesFrame(args, name, folded, aType, faults))
      ensures entered ==> own == [] && all[0].iOnErrIP == None && iFrame == all[0].frame && iStack.iSP == old(iStack.iSP) - 4
      ensures entered ==> all[0].args == args && all[0].own == c.floor
      ensures err == KErrNone ==> iIP == qCode
      ensures entered ==> FirstWith(iModules.listed, Typed(folded, aType)) == Some((iFrame.iModule, iFrame.iProcDef))
      ensures !entered ==> err < KErrNone && Sound() && all == c.base && depth == 0 && iIP == old(iIP)
      ensures !entered ==> FloorHolds(iStack.iCell[..], c)
    {
      hide Attached, ItemsOf, TotalSize, Typed, GlobalsOf;
      hide Running, Sound, Resolved, ArgBlock, FloorHolds, Passable, FirstWith;
      var count := iCallbackInfoArray[|iCallbackInfoArray| - 1].iParamCount;
      NewerPart(ArgBlock(args), Str(name), c.floor);
      FloorOfRunning(ArgBlock(args) + [Str(name)], c);
      ghost var cell, sp := iStack.iCell[..], iStack.iSP;
      CountFits(args);
      PushFixed(Int16(count));
      NameOnTop(own, args, name, c.floor);
      FloorUnchanged(cell, iStack.iCell[..], sp, c);
      Detach();
      ghost var was := all;
      err, entered := DoCallProcByStringExpr(args, name, c.floor, folded, aType, qCode, faults);
      if entered {
        FirstFrame(all, c);
        ResolvedHere();
      }
    }

    lemma {:induction false} ResolvedHere()
      requires Running() && all != []
      ensures Resolved(all[0].frame.iProcDef.iExternals, all) <==> !Unresolved(all[0].frame.iProcDef, all[1..])
    {
      hide Linked, TableOK, CountsOK, RoomOK, CStack.Valid, ItemsOf, TotalSize, Resolved, Unresolved;
      assert all == [all[0]] + all[1..];
      ResolvedExactly(all[0], all[1..]);
    }

    /** After the callback's Execute: drop its entry, or go back to where the last
        entry says; then the interrupted frame runs again. Entries that a failed
        InitCallbackL left behind make it go back too little. */
    method FinishCallback(out: Outcome, current: CFrame?, deep: nat, c: Context)
      requires (out == Finished || out.Failed?) && Ended(out, c) && c.baseDepth == 0 && (roomKept ==> Room(c.base, c.floor))
      requires Linked(c.base, deep) && current == TopFrame(c.base, deep) && iCallbackInfoArray != []
      modifies this`own, this`iFrame, this`depth, this`iCallbackInfoArray, this`iInCallback, this`callbacksEnded, iStack
      ensures all == c.base && depth == deep && iFrame == current
      ensures !iInCallback && callbacksEnded == old(callbacksEnded) + 1
      ensures iCallbackInfoArray == old(iCallbackInfoArray[..|iCallbackInfoArray| - 1])
      ensures out == Finished ==> Running() && own == old(own)
      ensures out.Failed? ==> Sound() && iStack.iSP == old(iCallbackInfoArray[|iCallbackInfoArray| - 1].iStackPtr)
      ensures out.Failed? && old(iCallbackInfoArray[|iCallbackInfoArray| - 1].iStackPtr) == FloorPos(c)
              ==> Running() && own == c.floor
    {
      hide Linked, Size;
      hide AllMade, TableOK, CountsOK, HoldsAll, TotalSize, ItemsOf, StackHolds, CStack.Valid;
      if out == Finished {
        iCallbackInfoArray := iCallbackInfoArray[..|iCallbackInfoArray| - 1];
      } else {
        ResetStack(c.floor + ItemsOf(c.base));
        own := c.floor;
        if iStack.iSP == FloorPos(c) {
          FloorIsStack(c);
        }
      }
      Reattach(current, deep);
      EndCallback();
    }

    /** Where the stack was before the operands of the interrupted code. */
    ghost function FloorPos(c: Context): int {
      iStack.iCell.Length - TotalSize(c.floor) - TotalSize(ItemsOf(c.base))
    }

    /** No code of an Execute started on c finds the stack higher than this. */
    ghost function Limit(c: Context): int {
      FloorPos(c) - if c.baseDepth == 0 then 4 else 0
    }

    lemma {:induction false} LimitIsPointer(c: Context)
      requires Running() && c.base == all && c.floor == own && c.baseDepth > 0
      ensures Limit(c) == iStack.iSP
    {
      RunningIsSound();
    }

    lemma {:induction false} PointerUnderLimit(c: Context)
      requires Running() && Nested(c)
      ensures iStack.iSP <= Limit(c)
    {
      RunningIsSound();
      var k := |all| - |c.base|;
      if k > 0 {
        FramesTake(all, k - 1);
        assert all[k..] == c.base;
        TailTakes(all[k - 1].own, c.floor);
      } else {
        TailFull(all, c.base);
        TailTakes(own, c.floor);
      }
      hide AllMade, Linked, TableOK, CountsOK, RoomOK, CStack.Valid, ItemsOf, TotalSize;
    }

    lemma {:induction false} FloorIsStack(c: Context)
      requires StackOK() && FloorHolds(iStack.iCell[..], c) && iStack.iSP == FloorPos(c)
      requires iStack.items == c.floor + ItemsOf(c.base)
      ensures iStack.Valid()
    {
      assert iStack.iCell[..][iStack.iSP..] == iStack.iCell[iStack.iSP..];
    }

    // -------------------------------------------------------------- execution

    /** What every stretch of execution keeps. */
    twostate predicate Kept()
      reads this, iModules
    {
      && (roomKept ==> old(roomKept))
      && |old(iCallbackInfoArray)| <= |iCallbackInfoArray|
      && iCallbackInfoArray[..|old(iCallbackInfoArray)|] == old(iCallbackInfoArray)
      && old(iModules.made) <= iModules.made && fresh(iModules.made - old(iModules.made))
    }

    /** The flag is set by every callback and cleared when one ends, whichever that
        is: in a callback it is clear once another one has ended. */
    twostate predicate FlagKept()
      reads this`iInCallback, this`callbacksEnded
    {
      && old(callbacksEnded) <= callbacksEnded
      && (iInCallback <==> old(iInCallback) && callbacksEnded == old(callbacksEnded))
    }

    /** OplAPI::CallProcedure, when the name and the parameters are on the stack. A
        failure puts the stack back to where it was exactly if no InitCallbackL has
        left an entry behind since; otherwise it goes back too little. */
    method CallProcedure(args: seq<Value>, name: seq<int>, c: Context, folded: Name, aType: TText, qCode: int,
                         faults: Faults, ops: seq<Op>)
      returns (out: Outcome, left: seq<Op>, loss: Loss, ghost inner: Option<Run>)
      requires Running() && own == ArgBlock(args) + ([Str(name)] + c.floor) && Passable(args)
      requires c.base == all && c.baseDepth == 0 && c.retIP == iIP
      requires iStack.iSP >= KSlack && |folded| == |name| && iCallbackInfoArray != [] && !iTrap && depth > 0
      requires iCallbackInfoArray[|iCallbackInfoArray| - 1].iParamCount == |args|
      requires iCallbackInfoArray[|iCallbackInfoArray| - 1].iStackPtr == FloorPos(c)
      requires WellFormed(ops)
      modifies this, iStack, iStack.iCell, iGlobalTbl, iGlobalTbl.iList, iGlobalTbl.iListMark
      modifies iModules, iModules.iModule, iModules.made
      ensures |left| <= |ops| && WellFormed(left) && out != Stopped
      ensures out == Finished || out.Failed? ==> all == c.base && depth == old(depth) && iFrame == old(iFrame) && iIP == c.retIP
      ensures out == Finished || out.Failed? ==> !iTrap
      ensures out == Finished ==> Running() && |own| == |c.floor| + 1 && own[1..] == c.floor
      ensures out.Failed? ==> out.err < KErrNone && Sound()
      ensures out == Finished || out.Failed? ==>
                EntriesLeft(old(iCallbackInfoArray[..|iCallbackInfoArray| - 1]), old(strandedEntries), iCallbackInfoArray,
                            strandedEntries, FloorPos(c))
      ensures out.Failed? && strandedEntries == old(strandedEntries)
              ==> Running() && own == c.floor && iStack.iSP == FloorPos(c)
      ensures out.Failed? && strandedEntries > old(strandedEntries) ==> iStack.iSP < FloorPos(c)
      ensures CutShort(out) ==> Sound() && StillThere(all, c.base)
      ensures out == FrameLost ==> Leaked(c.base)
      ensures out == FrameLost <==> loss != NoLoss
      ensures loss == AtStart <==> old(LosesFrame(args, name, folded, aType, faults))
      ensures !old(GetsFrame(args, name, folded, aType, faults)) ==>
                out.Failed? && left == ops && strandedEntries == old(strandedEntries)
      ensures loss == AtStart ==> left == ops && all != [] && all[1..] == c.base
      ensures loss == ByStop ==> callbacksEnded > old(callbacksEnded) + 1
      ensures loss == AtStart || loss == ByStop ==> depth == old(depth) && iFrame == old(iFrame)
      ensures out == Finished || out.Failed? || loss == AtStart || loss == ByStop ==>
                !iInCallback && callbacksEnded > old(callbacksEnded)
      ensures |iCallbackInfoArray| >= |old(iCallbackInfoArray)| - 1
              && iCallbackInfoArray[..|old(iCallbackInfoArray)| - 1] == old(iCallbackInfoArray[..|iCallbackInfoArray| - 1])
      ensures old(iModules.made) <= iModules.made && fresh(iModules.made - old(iModules.made)) && (roomKept ==> old(roomKept))
      ensures CallbackTraced(old(GetsFrame(args, name, folded, aType, faults)) && loss != AtStart, c,
                             old(iModules.listed), old(strandedEntries), args,
                             FirstWith(old(iModules.listed), Typed(folded, aType)), qCode, inner, ops, left, out)
      ensures out == Finished ==> inner.Some? && own == inner.value.end.own && iModules.listed == inner.value.end.listed
      decreases |ops|, 2
    {
      hide Ended, Kept, Nested, HoldsAll, CallbackTraced, FirstWith, Typed;
      hide CallBlock, Size, CGlobalsTbl.Valid;
      hide Running, Sound, Attached, HasTail, FloorHolds, ArgBlock, Passable, Resolved, AllMade, WellFormed, Linked;
      hide Leaked, StillThere, FloorPos, TopFrame, Room, GetsFrame, LosesFrame, EntriesLeft;
      left := ops;
      var current, deep := iFrame, depth;
      ghost var infos, stranded := iCallbackInfoArray, strandedEntries;
      LinkedNow();
      RoomBelowParams(args, name, c.floor);
      iInCallback := true;
      label begun:
      out, left, loss, inner := RunCallback(args, name, c, folded, aType, qCode, faults, ops);
      KeptMeans@begun();
      EndedMeans(out, c);
      if loss == AtStart || loss == ByStop {
        LoseFrames(loss, current, deep);
      }
      if out == FrameLost || CutShort(out) {
        return;
      }
      EndCallProcedure(out, current, deep, c, infos, stranded);
    }

    twostate lemma {:induction false} KeptMeans()
      requires Kept()
      ensures (roomKept ==> old(roomKept)) && |old(iCallbackInfoArray)| <= |iCallbackInfoArray|
      ensures iCallbackInfoArray[..|old(iCallbackInfoArray)|] == old(iCallbackInfoArray)
      ensures old(iModules.made) <= iModules.made && fresh(iModules.made - old(iModules.made))
    {
    }

    lemma {:induction false} EndedMeans(out: Outcome, c: Context)
      requires Ended(out, c) && c.baseDepth == 0
      ensures out == FrameLost ==> Leaked(c.base)
      ensures CutShort(out) ==> Sound() && StillThere(all, c.base)
      ensures out == Finished || out.Failed? ==> iIP == c.retIP
      ensures out == Finished ==> Running() && |own| == |c.floor| + 1 && own[1..] == c.floor
      ensures out.Failed? ==> out.err < KErrNone
    {
      hide Running, Sound, Leaked, StillThere, FloorHolds;
    }

    /** The end of CallProcedure after its Execute has returned. */
    method EndCallProcedure(out: Outcome, current: CFrame?, deep: nat, c: Context,
                            ghost infos: seq<SCallbackInfo>, ghost stranded: nat)
      requires (out == Finished || out.Failed?) && Ended(out, c) && c.baseDepth == 0 && (roomKept ==> Room(c.base, c.floor))
      requires Linked(c.base, deep) && current == TopFrame(c.base, deep)
      requires infos != [] && infos[|infos| - 1].iStackPtr == FloorPos(c)
      requires EntriesLeft(infos, stranded, iCallbackInfoArray, strandedEntries, FloorPos(c) - 4)
      modifies this`own, this`iFrame, this`depth, this`iCallbackInfoArray, this`iInCallback, this`callbacksEnded, iStack
      ensures all == c.base && depth == deep && iFrame == current
      ensures !iInCallback && callbacksEnded == old(callbacksEnded) + 1
      ensures out == Finished ==> Running() && own == old(own)
      ensures out.Failed? ==> Sound()
      ensures EntriesLeft(infos[..|infos| - 1], stranded, iCallbackInfoArray, strandedEntries, FloorPos(c))
      ensures |iCallbackInfoArray| == |old(iCallbackInfoArray)| - 1
      ensures iCallbackInfoArray == old(iCallbackInfoArray)[..|iCallbackInfoArray|]
      ensures out.Failed? && strandedEntries == stranded ==> Running() && own == c.floor && iStack.iSP == FloorPos(c)
      ensures out.Failed? && strandedEntries > stranded ==> iStack.iSP < FloorPos(c)
    {
      hide Running, Sound, Ended, Room, Linked, TopFrame;
      assert infos == infos[..|infos| - 1] + [infos[|infos| - 1]];
      LastEntryGoes(infos[|infos| - 1], infos[..|infos| - 1], stranded, iCallbackInfoArray, strandedEntries, FloorPos(c) - 4);
      hide EntriesLeft, FloorPos;
      FinishCallback(out, current, deep, c);
    }

    /** The same end of CallProcedure when the frames of the callback are still
        there: after an error the stack goes back, after STOP it does not. */
    method LoseFrames(loss: Loss, current: CFrame?, deep: nat)
      requires iCallbackInfoArray != []
      modifies this`iCallbackInfoArray, this`iFrame, this`depth, this`iInCallback, this`callbacksEnded, iStack
      ensures iFrame == current && depth == deep && !iInCallback && callbacksEnded == old(callbacksEnded) + 1
      ensures iCallbackInfoArray == old(iCallbackInfoArray[..|iCallbackInfoArray| - 1])
    {
      if loss == AtStart {
        ResetStack([]);
      } else {
        iCallbackInfoArray := iCallbackInfoArray[..|iCallbackInfoArray| - 1];
      }
      iFrame, depth := current, deep;
      EndCallback();
    }

    /** The flag is cleared, even inside another callback. */
    method EndCallback()
      modifies this`iInCallback, this`callbacksEnded
      ensures !iInCallback && callbacksEnded == old(callbacksEnded) + 1
    {
      iInCallback := false;
      callbacksEnded := callbacksEnded + 1;
    }

    lemma {:induction false} RoomBelowParams(args: seq<Value>, name: seq<int>, floor: seq<Value>)
      requires Running() && own == ArgBlock(args) + ([Str(name)] + floor)
      ensures roomKept ==> Room(all, floor)
    {
      hide FramesOK, TableOK, CountsOK, CStack.Valid, ArgBlock;
      assert own == (ArgBlock(args) + [Str(name)]) + floor;
      RoomWithout(ArgBlock(args) + [Str(name)], all, floor);
    }

    method RunCallback(args: seq<Value>, name: seq<int>, c: Context, folded: Name, aType: TText, qCode: int,
                       faults: Faults, ops: seq<Op>)
      returns (out: Outcome, left: seq<Op>, loss: Loss, ghost inner: Option<Run>)
      requires Running() && own == ArgBlock(args) + ([Str(name)] + c.floor) && Passable(args)
      requires iStack.iSP >= KSlack && |folded| == |name| && iCallbackInfoArray != [] && !iTrap && iInCallback
      requires c.base == all && c.baseDepth == 0 && c.retIP == iIP
      requires iCallbackInfoArray[|iCallbackInfoArray| - 1].iParamCount == |args|
      requires WellFormed(ops)
      modifies this, iStack, iStack.iCell, iGlobalTbl, iGlobalTbl.iList, iGlobalTbl.iListMark
      modifies iModules, iModules.iModule, iModules.made
      ensures |left| <= |ops| && WellFormed(left)
      ensures out == FrameLost <==> loss != NoLoss
      ensures loss == AtStart <==> old(LosesFrame(args, name, folded, aType, faults))
      ensures !old(GetsFrame(args, name, folded, aType, faults)) ==>
                out.Failed? && left == ops && strandedEntries == old(strandedEntries)
      ensures loss == AtStart ==> left == ops && all != [] && all[1..] == c.base
      ensures loss == AtStart ==> iCallbackInfoArray == old(iCallbackInfoArray) && callbacksEnded == old(callbacksEnded)
      ensures loss == ByStop ==> callbacksEnded > old(callbacksEnded)
      ensures out == Finished || out.Failed? ==> FlagKept()
      ensures Ended(out, c) && Kept() && out != Stopped && (out == Finished || out.Failed? ==> !iTrap)
      ensures out == Finished || out.Failed? ==>
                EntriesLeft(old(iCallbackInfoArray), old(strandedEntries), iCallbackInfoArray, strandedEntries, FloorPos(c) - 4)
      ensures CallbackTraced(old(GetsFrame(args, name, folded, aType, faults)) && loss != AtStart, c,
                             old(iModules.listed), old(strandedEntries), args,
                             FirstWith(old(iModules.listed), Typed(folded, aType)), qCode, inner, ops, left, out)
      ensures out == Finished ==> inner.Some? && own == inner.value.end.own && iModules.listed == inner.value.end.listed
      decreases |ops|, 1
    {
      hide FirstWith, Typed, IsRun, CallbackTraced, CallbackRuns, CallbackBegins;
      hide Running, Sound, Attached, HasTail, FloorHolds, ArgBlock, Passable, Resolved, WellFormed, Leaked, StillThere;
      hide LosesFrame, GetsFrame, FloorPos, Nested, Ended, EntriesLeft;
      left, loss, inner := ops, NoLoss, None;
      ghost var listed, stranded, target := iModules.listed, strandedEntries, FirstWith(iModules.listed, Typed(folded, aType));
      var err, entered := EnterCallback(args, name, c, folded, aType, qCode, faults);
      if entered && err != KErrNone {
        LeakedNow(c.base);
        LostOrFailed(err, c);
        NotTraced(c, listed, stranded, args, target, qCode, ops, left, FrameLost);
        return FrameLost, left, AtStart, inner;
      }
      if !entered {
        NoneLeft(iCallbackInfoArray, strandedEntries, FloorPos(c) - 4);
        LostOrFailed(err, c);
        NotTraced(c, listed, stranded, args, target, qCode, ops, left, Failed(err));
        return Failed(err), left, NoLoss, inner;
      }
      out, left, loss, inner := RunEntered(c, ops, args, target, qCode);
    }

    lemma {:induction false} BeginsNow(c: Context, args: seq<Value>, target: Option<(CModule, ProcDef)>, qCode: int)
      requires all != [] && all[1..] == c.base && own == [] && iIP == qCode && depth == 1 && iInCallback && !iTrap
      requires all[0].args == args && all[0].own == c.floor
      requires target == Some((all[0].frame.iModule, all[0].frame.iProcDef))
      ensures CallbackBegins(c, iModules.listed, strandedEntries, args, target, qCode, Now())
    {
    }

    lemma {:induction false} StoppedInside(c: Context)
      requires Ended(Stopped, c) && c.baseDepth == 0
      ensures Ended(FrameLost, c) && !iInCallback
    {
      hide FramesOK, TableOK, CountsOK, CStack.Valid, StillThere;
      TailIsThere(all, c.base);
    }

    lemma {:induction false} LostOrFailed(err: int, c: Context)
      ensures Leaked(c.base) ==> Ended(FrameLost, c)
      ensures (err < KErrNone && Sound() && all == c.base && depth == c.baseDepth == 0 && iIP == c.retIP
               && FloorHolds(iStack.iCell[..], c))
              ==> Ended(Failed(err), c)
    {
      hide Sound, Leaked, FloorHolds;
    }

    /** The run of a callback's procedure, from its start. STOP leaves its frame. */
    method RunEntered(c: Context, ops: seq<Op>, ghost args: seq<Value>, ghost target: Option<(CModule, ProcDef)>, ghost qCode: int)
      returns (out: Outcome, left: seq<Op>, loss: Loss, ghost inner: Option<Run>)
      requires Running() && Attached(all, depth, c) && |all| > |c.base| && !iTrap && WellFormed(ops) && c.baseDepth == 0
      requires all != [] && all[1..] == c.base && own == [] && iIP == qCode && depth == 1 && iInCallback
      requires all[0].args == args && all[0].own == c.floor
      requires target == Some((all[0].frame.iModule, all[0].frame.iProcDef))
      modifies this, iStack, iStack.iCell, iGlobalTbl, iGlobalTbl.iList, iGlobalTbl.iListMark
      modifies iModules, iModules.iModule, iModules.made
      ensures |left| <= |ops| && WellFormed(left)
      ensures out == FrameLost <==> loss != NoLoss
      ensures loss != AtStart && (loss == ByStop ==> callbacksEnded > old(callbacksEnded))
      ensures out == Finished || out.Failed? ==> FlagKept()
      ensures Ended(out, c) && Kept() && out != Stopped && (out == Finished || out.Failed? ==> !iTrap)
      ensures out == Finished || out.Failed? ==>
                EntriesLeft(old(iCallbackInfoArray), old(strandedEntries), iCallbackInfoArray, strandedEntries, FloorPos(c) - 4)
      ensures CallbackTraced(true, c, old(iModules.listed), old(strandedEntries), args, target, qCode, inner, ops, left, out)
      ensures out == Finished ==> inner.Some? && own == inner.value.end.own && iModules.listed == inner.value.end.listed
      decreases |ops|, 0, 1
    {
      hide Running, Sound, Attached, HasTail, FloorHolds, WellFormed, Leaked, StillThere, EntriesLeft, Kept, FloorPos, IsRun;
      hide Ended, Nested, CallbackTraced, CallbackBegins;
      NestedAbove(c);
      LimitOfCallback(c);
      ghost var listed, stranded := iModules.listed, strandedEntries;
      BeginsNow(c, args, target, qCode);
      ghost var run;
      out, left, run := Execute(c, ops);
      inner := Some(run);
      if out == Stopped {
        StoppedInside(c);
        out := FrameLost;
        loss := ByStop;
      } else {
        loss := if out == FrameLost then Inside else NoLoss;
      }
      IsTraced(c, listed, stranded, args, target, qCode, run, ops, left, out);
    }

    lemma {:induction false} NestedAbove(c: Context)
      requires Attached(all, depth, c) && |all| > |c.base|
      ensures Nested(c)
    {
    }

    lemma {:induction false} LimitOfCallback(c: Context)
      requires c.baseDepth == 0
      ensures Limit(c) == FloorPos(c) - 4
    {
    }

    lemma {:induction false} LeakedNow(base: seq<Live>)
      requires Running() && all != [] && all[1..] == base
      ensures Leaked(base)
    {
      hide FramesOK, TableOK, CountsOK, CStack.Valid, StillThere;
      TailIsThere(all, base);
    }

    lemma {:induction false} LinkedNow()
      requires Running()
      ensures Linked(all, depth) && iFrame == TopFrame(all, depth)
    {
    }

    /** Runs opcodes until the end of what was started on c. */
    method Execute(c: Context, ops: seq<Op>) returns (out: Outcome, left: seq<Op>, ghost run: Run)
      requires Running() && Nested(c) && !iTrap && WellFormed(ops)
      modifies this, iStack, iStack.iCell, iGlobalTbl, iGlobalTbl.iList, iGlobalTbl.iListMark
      modifies iModules, iModules.iModule, iModules.made
      ensures |left| <= |ops| && WellFormed(left)
      ensures Ended(out, c) && Kept() && (out == Finished || out.Failed? ==> !iTrap)
      ensures out.Failed? ==> iErrorValue == out.err
      ensures out == Finished || out.Failed? || out == Stopped ==> FlagKept()
      ensures out == Finished || out.Failed? ==>
                EntriesLeft(old(iCallbackInfoArray), old(strandedEntries), iCallbackInfoArray, strandedEntries, Limit(c))
      ensures IsRun(run, ops, left) && run.c == c && run.start == old(Now()) && run.out == out && run.end == Now()
      ensures out == Exhausted ==> left == []
      decreases |ops|, 0, 0
    {
      hide Running, Sound, Nested, Ended, Limit, IsUnderWay, IsRun, IsTurn, OpsAt, StateAt, GoesOn, EndsWith;
      NoneLeft(iCallbackInfoArray, strandedEntries, Limit(c));
      NothingYet(c, Now(), ops);
      hide EntriesLeft, WellFormed;
      left := ops;
      ghost var turns: seq<Turn>, t := [], *;
      while left != []
        invariant |left| <= |ops| && WellFormed(left)
        invariant Running() && Nested(c) && !iTrap && Kept() && FlagKept()
        invariant EntriesLeft(old(iCallbackInfoArray), old(strandedEntries), iCallbackInfoArray, strandedEntries, Limit(c))
        invariant IsUnderWay(turns, c, old(Now()), ops)
        invariant left == OpsAt(turns, ops, |turns|) && Now() == StateAt(turns, old(Now()), |turns|)
        decreases |left|
      {
        var ended;
        ghost var mid, stranded := iCallbackInfoArray, strandedEntries;
        ended, out, left, t := OneTurn(c, left);
        if !ended || out == Finished || out.Failed? {
          EntriesLeftMore(old(iCallbackInfoArray), old(strandedEntries), mid, stranded, iCallbackInfoArray, strandedEntries,
                          Limit(c), Limit(c));
        }
        if ended {
          LastTurn(turns, c, old(Now()), ops, t, out, Now());
          run := Run(c, old(Now()), turns + [t], out, Now());
          ExhaustedHasSeenAll(run, ops, left);
          return;
        }
        OneTurnMore(turns, c, old(Now()), ops, t);
        turns := turns + [t];
      }
      NothingMore(c);
      out := Exhausted;
      run := Run(c, old(Now()), turns, out, Now());
      NoMoreOpcodes(run, ops);
    }

    lemma {:induction false} NothingMore(c: Context)
      requires Running() && Nested(c)
      ensures Ended(Exhausted, c)
    {
      AllThere(c);
    }

    /** One opcode, and the error handler if it leaves. */
    method OneTurn(c: Context, ops: seq<Op>) returns (ended: bool, out: Outcome, left: seq<Op>, ghost t: Turn)
      requires Running() && Nested(c) && !iTrap && ops != [] && WellFormed(ops)
      modifies this, iStack, iStack.iCell, iGlobalTbl, iGlobalTbl.iList, iGlobalTbl.iListMark
      modifies iModules, iModules.iModule, iModules.made
      ensures |left| < |ops| && WellFormed(left) && Kept()
      ensures if ended then Ended(out, c) else Running() && Nested(c)
      ensures !ended || out == Finished || out.Failed? ==> !iTrap
      ensures ended && out.Failed? ==> iErrorValue == out.err
      ensures !ended || out == Finished || out.Failed? || out == Stopped ==> FlagKept()
      ensures !ended || out == Finished || out.Failed? ==>
                EntriesLeft(old(iCallbackInfoArray), old(strandedEntries), iCallbackInfoArray, strandedEntries, Limit(c))
      ensures t.op == ops[0] && t.before == old(Now()) && t.rest == left && IsTurn(t, c, ops[1..])
      ensures if ended then EndsWith(t, c, out, Now()) else GoesOn(t, c) && t.next == Now()
      ensures !ended ==> (out == Finished <==> t.r == Continue)
      decreases |ops| - 1, 7
    {
      hide Running, Sound, Attached, Nested, FloorHolds, OpOK, Moves, Near, StillThere, Tail, Limit, IsTurn, Passed, StepDone;
      hide EntriesLeft, FlagKept, HandledAt, GaveUp, Unhandled, Ended, EndsWith, GoesOn, Effect, Leaked;
      assert forall i :: 0 <= i < |ops| - 1 ==> ops[1..][i] == ops[i + 1];
      var r;
      r, left, t := Step(ops[0], c, ops[1..]);
      ended, out := r != Continue, if r.Stop? then r.out else Finished;
      if r.Leave? {
        ghost var after := Now();
        ended := LeaveToHandler(r.err, c);
        out := Failed(r.err);
        NextIsFree(t, c, ops[1..], Now());
        ErrorTurns(t, r.err, c, after, ended, Now());
        t := t.(next := Now());
      } else {
        TurnIsDone(r, c, t);
      }
    }

    lemma {:induction false} TurnIsDone(r: StepResult, c: Context, t: Turn)
      requires StepDone(r, c) && !r.Leave? && t.r == r && t.after == t.next == Now()
      ensures r == Continue ==> Running() && Nested(c) && GoesOn(t, c)
      ensures r == Exit ==> Ended(Finished, c) && EndsWith(t, c, Finished, Now())
      ensures r.Stop? ==> Ended(r.out, c) && EndsWith(t, c, r.out, Now())
      ensures r.Stop? ==> r.out != Finished && !r.out.Failed? && (r.out == Stopped ==> !iTrap)
    {
      hide Running, Sound, Nested, Leaked, StillThere, Unhandled, HandledAt, GaveUp;
    }

    /** The error handler of this Execute. */
    method LeaveToHandler(err: int, c: Context) returns (unhandled: bool)
      requires StepDone(Leave(err), c)
      modifies this`iFrame, this`iIP, this`all, this`depth, this`own, this`iTrap, this`iErrorValue, iStack
      modifies iGlobalTbl`flat, iGlobalTbl.iList, iModules`running, iModules.made
      ensures !iTrap && iErrorValue == err
      ensures if unhandled then Ended(Failed(err), c) else Running() && Nested(c)
      ensures unhandled == Unhandled(old(Now()), c)
      ensures if unhandled then GaveUp(old(Now()), err, c, Now()) else HandledAt(old(Now()), err, c, Now())
      ensures old(iModules.made) <= iModules.made && fresh(iModules.made - old(iModules.made))
    {
      hide Running, Sound, Nested, FloorHolds, Tail, Passed, Attached, Ended, HandledAt, GaveUp, Unhandled, HandlerFound;
      LeftAttached(Leave(err), c);
      ghost var s := Now();
      iErrorValue := err;
      unhandled := Handle(c);
      HandlerIsFound(s, err, c, unhandled);
    }

    lemma {:induction false} HandlerIsFound(s: State, err: int, c: Context, unhandled: bool)
      requires !iTrap && iErrorValue == err && err < KErrNone && |c.base| <= |s.all|
      requires iInCallback == s.inCallback && iModules.listed == s.listed
      requires if s.trap then !unhandled else unhandled <==> Passed(s.all, |s.all| - |c.base|)
      requires !unhandled ==> HandlerFound(s.all, s.depth, s.trap, s.ip, c) && own == [] && iStack.iSP == all[0].frame.iSP
      requires unhandled ==>
        Sound() && all == c.base && depth == c.baseDepth
        && (c.baseDepth == 0 ==> iIP == c.retIP && FloorHolds(iStack.iCell[..], c))
      ensures unhandled == Unhandled(s, c)
      ensures if unhandled then GaveUp(s, err, c, Now()) && Ended(Failed(err), c) else HandledAt(s, err, c, Now())
    {
      hide Running, Sound, FloorHolds, Passed;
    }

    method Step(op: Op, c: Context, ops: seq<Op>) returns (r: StepResult, left: seq<Op>, ghost t: Turn)
      requires Running() && Nested(c) && !iTrap && OpOK(op) && WellFormed(ops)
      modifies this, iStack, iStack.iCell, iGlobalTbl, iGlobalTbl.iList, iGlobalTbl.iListMark
      modifies iModules, iModules.iModule, iModules.made
      ensures |left| <= |ops| && WellFormed(left)
      ensures StepDone(r, c) && Kept() && (r == Continue || r == Exit ==> !iTrap)
      ensures r == Continue ==> Moves(old(all), all, own, iIP)
      ensures r.Leave? ==> Near(old(all), all)
      ensures !op.ReturnOp? && !op.EvalOp? && !op.CallbackOp? ==> roomKept == old(roomKept)
      ensures !r.Stop? || r.out == Stopped ==> FlagKept()
      ensures !r.Stop? ==>
                EntriesLeft(old(iCallbackInfoArray), old(strandedEntries), iCallbackInfoArray, strandedEntries, Limit(c))
      ensures Effect(op, r, c, old(Now()), Now())
      ensures t.op == op && t.before == old(Now()) && t.r == r && t.after == t.next == Now() && t.rest == left && IsTurn(t, c, ops)
      decreases |ops|, 6
    {
      hide Running, Sound, Attached, HasTail, WellFormed, IsZero, Moves, Near, Nested, Effect, Evaluated, CalledBack;
      NoneLeft(iCallbackInfoArray, strandedEntries, Limit(c));
      hide EntriesLeft, Limit;
      left := ops;
      ghost var s, inner := Now(), None;
      if op.EvalOp? {
        r, left, inner := EvalStep(op.translateErr, op.maxStackDepth, op.qCode, c, ops);
      } else if op.CallbackOp? {
        r, left, inner := CallbackStep(op, c, ops);
      } else {
        r := PlainStep(op, c);
      }
      LeftAttached(r, c);
      t := Turn(op, s, r, Now(), inner, left, Now());
    }

    lemma {:induction false} LeftAttached(r: StepResult, c: Context)
      requires StepDone(r, c)
      ensures r.Leave? ==> |c.base| <= |all|
    {
      hide Running, Sound;
    }

    /** An opcode that executes nothing inside. */
    method PlainStep(op: Op, c: Context) returns (r: StepResult)
      requires Running() && Nested(c) && !iTrap && OpOK(op) && !op.EvalOp? && !op.CallbackOp?
      modifies this`iFrame, this`iIP, this`all, this`depth, this`own, this`roomKept, this`iTrap, iStack, iStack.iCell
      modifies iGlobalTbl`flat, iGlobalTbl.iList, iGlobalTbl.iListMark
      modifies iModules`running, iModules`listed, iModules`made, iModules`iNumModulesLoaded, iModules.iModule, iModules.made
      ensures StepDone(r, c) && (r == Continue || r == Exit ==> !iTrap) && (roomKept ==> old(roomKept))
      ensures r == Continue ==> Moves(old(all), all, own, iIP)
      ensures r.Leave? ==> Near(old(all), all)
      ensures !op.ReturnOp? ==> roomKept == old(roomKept)
      ensures r.Stop? ==> r.out == Stopped
      ensures old(iModules.made) <= iModules.made && fresh(iModules.made - old(iModules.made))
      ensures Effect(op, r, c, old(Now()), Now())
    {
      hide Running, Sound, Attached, HasTail, WellFormed, IsZero, StepDone, Moves, Near, Nested, OpOK, FitsCaller;
      NestedHasFrame(c);
      if op.PushOp? || op.DropOp? || op.FailOp? || op.JumpOp? {
        r := OperandStep(op, c);
      } else if op.TrapOp? || op.OnErrOp? || op.LoadOp? || op.UnloadOp? {
        r := CommandStep(op, c);
      } else if op.StopOp? {
        r := StopStep(c);
      } else {
        r := FrameStep(op, c);
      }
    }

    /** STOP ends the Execute without a value, and whatever it has made stays; in a
        callback it is an error, as long as the flag says that it is one. */
    method StopStep(c: Context) returns (r: StepResult)
      requires Running() && Nested(c) && !iTrap
      ensures StepDone(r, c) && r != Exit
      ensures r == Continue ==> Moves(all, all, own, iIP)
      ensures r.Leave? ==> Near(all, all)
      ensures r == if |all| <= |c.base| then Continue else if iInCallback then Leave(KOplErrStopInCallback) else Stop(Stopped)
    {
      hide Running, Sound, Attached, HasTail, Moves, Near;
      NestedHasFrame(c);
      RunningIsSound();
      MovesNot(all, own, iIP);
      if |all| <= |c.base| {
        return Continue;
      }
      r := if iInCallback then Leave(KOplErrStopInCallback) else Stop(Stopped);
    }

    method FrameStep(op: Op, c: Context) returns (r: StepResult)
      requires Running() && Nested(c) && !iTrap && OpOK(op)
      requires op.CallOp? || op.CallByNameOp? || op.ReturnOp? || op.ZeroReturnOp? || op.EvalEndOp?
      modifies this`iFrame, this`iIP, this`all, this`depth, this`own, this`roomKept, iStack, iStack.iCell
      modifies iGlobalTbl`flat, iGlobalTbl.iList, iGlobalTbl.iListMark, iModules`running, iModules.made
      ensures StepDone(r, c) && !r.Stop? && (roomKept ==> old(roomKept))
      ensures r == Continue ==> Moves(old(all), all, own, iIP)
      ensures r.Leave? ==> Near(old(all), all)
      ensures !op.ReturnOp? ==> roomKept == old(roomKept)
      ensures Effect(op, r, c, old(Now()), Now())
    {
      hide Running, Sound, Attached, HasTail, IsZero, StepDone, Moves, Near, CallDone, CanCall, CallArgs, BelowArgs, FitsCaller;
      hide Effect, NameOffered, ByName, FirstWith, Nested, NoRoomForEmpty;
      NestedHasFrame(c);
      ghost var s := Now();
      if op.CallOp? {
        r := CallStep(op.procName, op.n, op.qCode, op.faults, c);
        CallEffect(op.procName, op.n, op.qCode, op.faults, r, c, s, Now());
      } else if op.CallByNameOp? {
        r := CallByNameStep(op.folded, op.aType, op.n, op.qCode, op.faults, c);
        NameEffect(op.folded, op.aType, op.n, op.qCode, op.faults, r, c, s, Now());
      } else if op.ReturnOp? {
        r := ReturnStep(c);
        ReturnEffect(r, c, s, Now());
      } else if op.ZeroReturnOp? {
        r := ZeroReturnStep(op.zero, c);
        ZeroEffect(op.zero, r, c, s, Now());
      } else {
        r := EvalEndStep(c);
        EvalEndEffect(r, c, s);
      }
    }

    method OperandStep(op: Op, c: Context) returns (r: StepResult)
      requires Running() && Nested(c) && !iTrap && OpOK(op) && (op.PushOp? || op.DropOp? || op.FailOp? || op.JumpOp?)
      modifies this`own, this`iIP, iStack, iStack.iCell
      ensures StepDone(r, c) && !r.Stop? && r != Exit
      ensures r == Continue ==> Moves(old(all), all, own, iIP)
      ensures r.Leave? ==> Near(old(all), all)
      ensures Effect(op, r, c, old(Now()), Now())
    {
      hide Running, Sound, Attached, HasTail, Moves, Near;
      NestedHasFrame(c);
      r := Continue;
      if op.PushOp? {
        r := PushStep(op.v, c);
      } else if op.DropOp? {
        DropStep(c);
      } else if op.FailOp? {
        r := FailStep(op.err, op.pops, c);
      } else {
        iIP := op.ip;
      }
      MovesNot(all, own, iIP);
    }

    /** Commands do not occur inside an expression. */
    method CommandStep(op: Op, c: Context) returns (r: StepResult)
      requires Running() && Nested(c) && !iTrap && OpOK(op)
      requires op.TrapOp? || op.OnErrOp? || op.LoadOp? || op.UnloadOp?
      modifies this`own, this`all, this`iTrap, iStack
      modifies iModules`listed, iModules`made, iModules`iNumModulesLoaded, iModules.iModule, iModules.made
      ensures StepDone(r, c) && (r == Continue ==> !iTrap) && r != Exit && !r.Stop?
      ensures old(iModules.made) <= iModules.made && fresh(iModules.made - old(iModules.made))
      ensures r == Continue ==> Moves(old(all), all, own, iIP)
      ensures r.Leave? ==> Near(old(all), all)
      ensures Effect(op, r, c, old(Now()), Now())
    {
      hide Running, Sound, Attached, HasTail, Moves, Near, OpOK, Named;
      NestedHasFrame(c);
      if |all| <= |c.base| {
        MovesNot(all, own, iIP);
        return Continue;
      }
      var err := Command(op, c);
      NestedHasFrame(c);
      RunningIsSound();
      r := if err != KErrNone then Leave(err) else Continue;
    }

    /** A command; after TRAP an error of it is left to the error handler. */
    method Command(op: Op, c: Context) returns (err: int)
      requires Running() && Nested(c) && !iTrap && OpOK(op) && |all| > |c.base|
      requires op.TrapOp? || op.OnErrOp? || op.LoadOp? || op.UnloadOp?
      modifies this`own, this`all, this`iTrap, iStack
      modifies iModules`listed, iModules`made, iModules`iNumModulesLoaded, iModules.iModule, iModules.made
      ensures Moves(old(all), all, own, iIP) && Near(old(all), all)
      ensures Running() && Nested(c) && |all| > |c.base| && err <= KErrNone && (iTrap ==> err < KErrNone)
      ensures old(iModules.made) <= iModules.made && fresh(iModules.made - old(iModules.made))
      ensures Effect(op, if err != KErrNone then Leave(err) else Continue, c, old(Now()), Now())
      ensures op.TrapOp? ==> iTrap == (err != KErrNone)
    {
      hide Running, Attached, HasTail, Named, Moves, Near, Grounded;
      NestedHasFrame(c);
      MovesNot(all, own, iIP);
      err := KErrNone;
      if op.TrapOp? {
        err := op.err;
        iTrap := err != KErrNone;
      } else if op.OnErrOp? {
        ghost var was := all;
        OnErrStep(op.handler, c);
        TopMoves(was, all, own, iIP);
      } else if op.LoadOp? {
        err := LoadStep(op.fileName, op.file, c);
      } else {
        err := UnloadStep(op.fileName, c);
      }
      if !op.OnErrOp? {
        MovesNot(all, own, iIP);
      }
    }

    /** The code of the operand runs, and what it leaves is the operand. */
    method EvaluateOperand(qCode: int, c: Context, ops: seq<Op>) returns (r: StepResult, left: seq<Op>, ghost run: Run)
      requires Running() && Nested(c) && !iTrap && depth > 0 && all != [] && WellFormed(ops)
      modifies this, iStack, iStack.iCell, iGlobalTbl, iGlobalTbl.iList, iGlobalTbl.iListMark
      modifies iModules, iModules.iModule, iModules.made
      ensures |left| <= |ops| && WellFormed(left)
      ensures StepDone(r, c) && Kept() && (r == Continue || r == Exit ==> !iTrap)
      ensures r == Continue ==> |own| == |old(own)| + 1 && own[1..] == old(own) && own[0].Real?
      ensures r == Continue || r.Leave? ==> all == old(all) && depth == old(depth) && iIP == old(iIP)
      ensures r.Stop? ==> r.out != Stopped
      ensures !r.Stop? ==> FlagKept()
      ensures !r.Stop? ==>
                EntriesLeft(old(iCallbackInfoArray), old(strandedEntries), iCallbackInfoArray, strandedEntries, Limit(c))
      ensures ExpressionRuns(old(Now()), qCode, run, ops, left) && r == AfterExpression(run.out)
      ensures r == Continue ==> own == run.end.own && iModules.listed == run.end.listed
      decreases |ops|, 2
    {
      hide Running, Sound, Attached, HasTail, WellFormed, Limit, EntriesLeft, StillThere, Leaked;
      hide StepDone, ExpressionRuns;
      NotNegative(c);
      PointerUnderLimit(c);
      ghost var floor, was, deep, sp := own, all, depth, iStack.iSP;
      var out;
      out, left, run := RunExpression(qCode, ops);
      r := AfterNested(out, floor, was, deep, false, c);
      if !r.Stop? {
        NoneLeft(old(iCallbackInfoArray), old(strandedEntries), Limit(c));
        EntriesLeftMore(old(iCallbackInfoArray), old(strandedEntries), old(iCallbackInfoArray), old(strandedEntries),
                        iCallbackInfoArray, strandedEntries, sp, Limit(c));
      }
    }

    /** EVAL: the string is popped and its code runs as part of the same procedure,
        which no error may remove meanwhile. */
    method EvalStep(translateErr: int, maxStackDepth: nat, qCode: int, c: Context, ops: seq<Op>)
      returns (r: StepResult, left: seq<Op>, ghost inner: Option<Run>)
      requires Running() && Nested(c) && !iTrap && WellFormed(ops) && translateErr <= KErrNone
      modifies this, iStack, iStack.iCell, iGlobalTbl, iGlobalTbl.iList, iGlobalTbl.iListMark
      modifies iModules, iModules.iModule, iModules.made
      ensures |left| <= |ops| && WellFormed(left)
      ensures StepDone(r, c) && Kept() && (r == Continue || r == Exit ==> !iTrap)
      ensures r == Continue ==> Moves(old(all), all, own, iIP)
      ensures r.Leave? ==> Near(old(all), all)
      ensures r == Continue ==> old(EvalOffered(all, own, c)) ==> |own| == |old(own)| && own[1..] == old(own)[1..] && own[0].Real?
      ensures r == Continue || r.Leave? ==> all == old(all) && depth == old(depth) && iIP == old(iIP)
      ensures r.Stop? ==> r.out != Stopped
      ensures !r.Stop? ==> FlagKept()
      ensures !r.Stop? ==>
                EntriesLeft(old(iCallbackInfoArray), old(strandedEntries), iCallbackInfoArray, strandedEntries, Limit(c))
      ensures var op := EvalOp(translateErr, maxStackDepth, qCode);
              && Effect(op, r, c, old(Now()), Now())
              && Evaluated(Turn(op, old(Now()), r, Now(), inner, left, Now()), c, ops)
      decreases |ops|, 3
    {
      hide CallBlock, TableOK, IsRun;
      hide Running, Sound, Attached, HasTail, WellFormed, Limit;
      NoneLeft(iCallbackInfoArray, strandedEntries, Limit(c));
      hide EntriesLeft;
      NestedHasFrame(c);
      left := ops;
      inner := None;
      if !EvalOffered(all, own, c) {
        return Continue, left, inner;
      }
      DropStep(c);
      var err := RoomToEvaluate(translateErr, maxStackDepth);
      if err != KErrNone {
        return Leave(err), left, inner;
      }
      ghost var run;
      r, left, run := EvaluateOperand(qCode, c, ops);
      inner := Some(run);
    }

    method RoomToEvaluate(translateErr: int, maxStackDepth: nat) returns (err: int)
      requires Running() && translateErr <= KErrNone
      ensures err <= KErrNone && Sound()
      ensures err == if translateErr != KErrNone then translateErr
                     else if iStack.iSP - KReserve < maxStackDepth then KOplErrNoMemory else KErrNone
    {
      hide Running, Sound;
      RunningIsSound();
      var free := iStack.FreeBytes();
      err := if translateErr != KErrNone then translateErr else if free < maxStackDepth then KOplErrNoMemory else KErrNone;
    }

    /** Back from a nested Execute, among the operands from before it. */
    method AfterNested(out: Outcome, ghost floor: seq<Value>, ghost was: seq<Live>, ghost deep: nat, goOn: bool, ghost c: Context)
      returns (r: StepResult)
      requires Attached(was, deep, c) && deep > 0
      requires |was| == |c.base| ==> c.baseDepth > 0 && HasTail(floor, c.floor)
      requires out != Stopped && (out == Finished || out.Failed? ==> all == was && depth == deep && !iTrap)
      requires out == Finished ==> Running() && |own| == |floor| + 1 && own[1..] == floor
      requires out.Failed? ==> out.err < KErrNone && Sound() && (goOn ==> Running() && own == floor)
      requires CutShort(out) ==> Sound() && StillThere(all, was)
      requires out == FrameLost ==> Leaked(was)
      ensures StepDone(r, c) && r != Exit && (r == Continue ==> !iTrap)
      ensures r.Stop? <==> CutShort(out) || out == FrameLost
      ensures r == (match out
                    case Finished => Continue
                    case Failed(err) => if goOn then Continue else Leave(err)
                    case _ => Stop(out))
    {
      hide Running, Sound, Attached, HasTail, StillThere, Grounded, TableOK, CountsOK;
      match out {
        case Finished =>
          HasTailPush(own[0], floor, c.floor);
          assert own == [own[0]] + floor;
          r := Continue;
        case Failed(err) =>
          r := if goOn then Continue else Leave(err);
        case _ =>
          StillAttached(all, was, deep, c);
          r := Stop(out);
      }
    }

    lemma {:induction false} NotNegative(c: Context)
      requires Nested(c) && all != []
      ensures all[0].iEvalNestCount >= 0
    {
    }

    /** Execute on the code of an expression. Whatever happens in it, the procedure
        that evaluates it, its callers and the code address are as before. A run in
        which STOP ends it is not followed further. */
    method RunExpression(qCode: int, ops: seq<Op>) returns (out: Outcome, left: seq<Op>, ghost run: Run)
      requires Running() && depth > 0 && all != [] && all[0].iEvalNestCount >= 0 && !iTrap && WellFormed(ops)
      modifies this, iStack, iStack.iCell, iGlobalTbl, iGlobalTbl.iList, iGlobalTbl.iListMark
      modifies iModules, iModules.iModule, iModules.made
      ensures |left| <= |ops| && WellFormed(left) && Kept() && out != Stopped
      ensures out == Finished || out.Failed? ==> FlagKept()
      ensures out == Finished || out.Failed? ==> all == old(all) && depth == old(depth) && iIP == old(iIP) && !iTrap
      ensures out == Finished ==> Running() && |own| == |old(own)| + 1 && own[1..] == old(own) && own[0].Real?
      ensures out.Failed? ==> out.err < KErrNone && Sound()
      ensures CutShort(out) ==> Sound() && StillThere(all, old(all))
      ensures out == FrameLost ==> Leaked(old(all))
      ensures out == Finished || out.Failed? ==>
                EntriesLeft(old(iCallbackInfoArray), old(strandedEntries), iCallbackInfoArray, strandedEntries, old(iStack.iSP))
      ensures ExpressionRuns(old(Now()), qCode, run, ops, left)
      ensures out == if run.out == Stopped then StopInEval else run.out
      ensures out == Finished ==> own == run.end.own && iModules.listed == run.end.listed
      decreases |ops|, 1
    {
      hide IsRun;
      hide Running, Sound, Nested, Ended, WellFormed, StillThere, Leaked, EntriesLeft, Limit, Evaluating;
      var ip := iIP;
      ghost var was := all;
      var c := BeginExpression(qCode);
      InsideOf(was, all);
      out, left, run := Execute(c, ops);
      out := EndExpression(out, ip, c, was);
    }

    /** The same frames, the innermost one evaluating. */
    ghost predicate Evaluating(was: seq<Live>, inside: seq<Live>) {
      was != [] && inside == Marked(was)
    }

    lemma {:induction false} InsideOf(was: seq<Live>, inside: seq<Live>)
      ensures Evaluating(was, inside) ==> was != [] && inside == Marked(was)
    {
    }

    method BeginExpression(qCode: int) returns (c: Context)
      requires Running() && depth > 0 && all != [] && all[0].iEvalNestCount >= 0
      modifies this`all, this`iIP
      ensures Running() && Nested(c) && Limit(c) == iStack.iSP
      ensures c == Context(all, depth, own, 0) && Evaluating(old(all), all) && Now() == old(Now()).(all := all, ip := qCode)
    {
      hide Running, Sound, Nested, Limit;
      iIP := qCode;
      SetState(all[0].(iEvalNestCount := all[0].iEvalNestCount + 1));
      c := Context(all, depth, own, 0);
      Evaluates(c);
      LimitIsPointer(c);
    }

    method EndExpression(ended: Outcome, ip: int, c: Context, ghost was: seq<Live>) returns (out: Outcome)
      requires Ended(ended, c) && Evaluating(was, c.base) && c.baseDepth > 0
      modifies this`all, this`iIP
      ensures out == if ended == Stopped then StopInEval else ended
      ensures out == Finished || out.Failed? ==> all == was && depth == c.baseDepth && iIP == ip
      ensures out == Finished ==> Running() && |own| == |c.floor| + 1 && own[1..] == c.floor && own[0].Real?
      ensures out.Failed? ==> out.err < KErrNone && Sound()
      ensures CutShort(out) ==> Sound() && StillThere(all, was)
      ensures out == FrameLost ==> Leaked(was)
    {
      hide Running, Sound, Nested, FloorHolds, StillThere, Leaked;
      out := ended;
      if out == Stopped {
        AllThere(c);
        out := StopInEval;
      }
      if out == FrameLost || CutShort(out) {
        NestChanges(was, c.base);
        return;
      }
      Unnest(ip, was);
    }

    /** DecEvalNestCount, and back to the code that evaluated. */
    method Unnest(ip: int, ghost was: seq<Live>)
      requires was != [] && all == [was[0].(iEvalNestCount := was[0].iEvalNestCount + 1)] + was[1..]
      modifies this`all, this`iIP
      ensures all == was && iIP == ip
      ensures old(Running()) ==> Running()
      ensures old(Sound()) ==> Sound()
    {
      hide Running, Sound;
      SetState(all[0].(iEvalNestCount := all[0].iEvalNestCount - 1));
      iIP := ip;
    }

    lemma {:induction false} NestChanges(was: seq<Live>, inside: seq<Live>)
      requires was != [] && inside != [] && inside[1..] == was[1..] && SameButState(was[0], inside[0])
      ensures StillThere(all, inside) ==> StillThere(all, was)
      ensures Leaked(inside) ==> Leaked(was)
    {
      hide TableOK, CountsOK, StillThere;
      if StillThere(all, inside) {
        NestForgotten(all, was, inside);
      }
    }

    lemma {:induction false} Evaluates(c: Context)
      requires all != [] && all[0].iEvalNestCount > 0 && c == Context(all, depth, own, 0) && depth > 0
      ensures Nested(c)
    {
    }

    /** A native procedure calls back. Its frame, its operands and the code address
        are as before afterwards, with the result added on success. On failure the
        operands and the stack pointer are as before exactly if no InitCallbackL has
        failed, that of this callback or one of a callback nested in it; otherwise
        the pointer ends lower. */
    method Callback(op: Op, ops: seq<Op>) returns (out: Outcome, left: seq<Op>, restored: bool, ghost inner: Option<Run>)
      requires Running() && depth > 0 && iFrame != null && !iTrap && op.CallbackOp? && OpOK(op) && WellFormed(ops)
      modifies this, iStack, iStack.iCell, iGlobalTbl, iGlobalTbl.iList, iGlobalTbl.iListMark
      modifies iModules, iModules.iModule, iModules.made
      ensures |left| <= |ops| && WellFormed(left) && Kept() && out != Stopped
      ensures out == Finished || out.Failed? ==> FlagKept()
      ensures out == Finished || out.Failed? ==> all == old(all) && depth == old(depth) && iIP == old(iIP) && !iTrap
      ensures out == Finished ==> Running() && |own| == |old(own)| + 1 && own[1..] == old(own)
      ensures out.Failed? ==> out.err < KErrNone && Sound()
      ensures out.Failed? ==> (restored <==> strandedEntries == old(strandedEntries))
      ensures out.Failed? ==> (restored <==> iStack.iSP == old(iStack.iSP))
      ensures out.Failed? && restored ==> Running() && own == old(own) && iCallbackInfoArray == old(iCallbackInfoArray)
      ensures out.Failed? && !restored ==> iStack.iSP < old(iStack.iSP) && |iCallbackInfoArray| > |old(iCallbackInfoArray)|
      ensures out == Finished || out.Failed? ==>
                EntriesLeft(old(iCallbackInfoArray), old(strandedEntries), iCallbackInfoArray, strandedEntries, old(iStack.iSP))
      ensures CutShort(out) ==> Sound() && StillThere(all, old(all))
      ensures out == FrameLost ==> Leaked(old(all))
      ensures CallbackDone(op, old(Now()), ops, inner, left, out, restored, Now())
      decreases |ops|, 4
    {
      hide IsRun, ItemsOf;
      hide CallbackDone, CallbackTraced, ParamsFit, FirstWith, Typed, Prepared, Traces.GetsFrame, Traces.LosesFrame;
      hide TopFrame, Room, TotalSize, AllMade, RoomBelow, RoomOK, EntriesLeft, FloorPos, Leaked;
      hide Running, Sound, HasTail, WellFormed, Passable, AllInRange, InRange, ArgBlock, StillThere, Size;
      left := ops;
      var before := own;
      ghost var s, infos := Now(), iCallbackInfoArray;
      RunningIsSound();
      TopOfFrames();
      PointerIsFloor();
      NoneLeft(infos, s.stranded, s.sp);
      OneLeft(infos, s.stranded, s.sp);
      var entries := |iCallbackInfoArray|;
      var err := PrepareCallback(op.name, op.args, op.noEntry);
      if err != KErrNone {
        restored := |iCallbackInfoArray| == entries;
        CallbackNotPrepared(op, s, ops, restored, Now());
        return Failed(err), left, restored, None;
      }
      out, left, inner := CallPrepared(op, before, ops, s, infos);
      restored := |iCallbackInfoArray| == entries;
      if out == Finished || out.Failed? {
        EntriesCounted(infos, s.stranded, iCallbackInfoArray, strandedEntries, s.sp);
      }
      CallbackIsDone(op, s, ops, inner, left, out, restored, Now());
    }

    /** The callback, with its name and parameters on the stack. */
    method CallPrepared(op: Op, before: seq<Value>, ops: seq<Op>, ghost s: State, ghost infos: seq<SCallbackInfo>)
      returns (out: Outcome, left: seq<Op>, ghost inner: Option<Run>)
      requires Running() && depth > 0 && iFrame != null && !iTrap && op.CallbackOp? && OpOK(op) && WellFormed(ops)
      requires own == ArgBlock(op.args) + ([Str(op.name)] + before) && iStack.iSP >= KReserve
      requires s.all == all && s.own == before && s.ip == iIP && s.listed == iModules.listed && s.stranded == strandedEntries
      requires iStack.iSP == Prepared(s.sp, op.name, op.args) && s.sp == FloorPos(Context(all, 0, before, iIP))
      requires iCallbackInfoArray == infos + [SCallbackInfo(s.sp, |op.args|)]
      modifies this, iStack, iStack.iCell, iGlobalTbl, iGlobalTbl.iList, iGlobalTbl.iListMark
      modifies iModules, iModules.iModule, iModules.made
      ensures |left| <= |ops| && WellFormed(left) && out != Stopped
      ensures |infos| <= |iCallbackInfoArray| && iCallbackInfoArray[..|infos|] == infos && (roomKept ==> old(roomKept))
      ensures old(iModules.made) <= iModules.made && fresh(iModules.made - old(iModules.made))
      ensures out == Finished || out.Failed? ==> !iInCallback && callbacksEnded > old(callbacksEnded)
      ensures out == Finished || out.Failed? ==> all == old(all) && depth == old(depth) && iIP == old(iIP) && !iTrap
      ensures out == Finished ==> Running() && |own| == |before| + 1 && own[1..] == before
      ensures out.Failed? ==> out.err < KErrNone && Sound()
      ensures out.Failed? && strandedEntries == s.stranded ==> Running() && own == before && iStack.iSP == s.sp
      ensures out.Failed? && strandedEntries > s.stranded ==> iStack.iSP < s.sp
      ensures out == Finished || out.Failed? ==>
                EntriesLeft(infos, s.stranded, iCallbackInfoArray, strandedEntries, s.sp)
      ensures CutShort(out) ==> Sound() && StillThere(all, old(all))
      ensures out == FrameLost ==> Leaked(old(all))
      ensures PreparedDone(op, s, ops, inner, left, out, Now())
      decreases |ops|, 3
    {
      hide CallbackTraced, FirstWith, Typed, Prepared, Traces.GetsFrame, Traces.LosesFrame, PreparedDone, Leaked, Size, Nested;
      hide Running, Sound, WellFormed, Passable, AllInRange, InRange, ArgBlock, StillThere, EntriesLeft, FloorPos;
      assert iCallbackInfoArray[..|iCallbackInfoArray| - 1] == infos;
      var loss;
      var c := Context(all, 0, before, iIP);
      out, left, loss, inner := CallProcedure(op.args, op.name, c, op.folded, op.aType, op.qCode, op.faults, ops);
      PreparedIsDone(op, s, ops, inner, left, out, Now());
    }

    lemma {:induction false} PointerIsFloor()
      requires Running()
      ensures FloorPos(Context(all, 0, own, iIP)) == iStack.iSP
    {
      RunningIsSound();
    }

    /** The native procedure may pass a failure on or, with its operands back, go on. */
    method CallbackStep(op: Op, c: Context, ops: seq<Op>) returns (r: StepResult, left: seq<Op>, ghost inner: Option<Run>)
      requires Running() && Nested(c) && !iTrap && op.CallbackOp? && OpOK(op) && WellFormed(ops)
      modifies this, iStack, iStack.iCell, iGlobalTbl, iGlobalTbl.iList, iGlobalTbl.iListMark
      modifies iModules, iModules.iModule, iModules.made
      ensures |left| <= |ops| && WellFormed(left)
      ensures StepDone(r, c) && Kept() && (r == Continue || r == Exit ==> !iTrap)
      ensures r == Continue ==> Moves(old(all), all, own, iIP)
      ensures r.Leave? ==> Near(old(all), all)
      ensures r == Continue ==> (|own| == |old(own)| + 1 && own[1..] == old(own)) || (own == old(own) && !op.propagates)
      ensures r == Continue || r.Leave? ==> all == old(all) && depth == old(depth) && iIP == old(iIP)
      ensures r.Stop? ==> r.out != Stopped
      ensures !r.Stop? ==> FlagKept()
      ensures !r.Stop? ==>
                EntriesLeft(old(iCallbackInfoArray), old(strandedEntries), iCallbackInfoArray, strandedEntries, Limit(c))
      ensures Effect(op, r, c, old(Now()), Now()) && CalledBack(Turn(op, old(Now()), r, Now(), inner, left, Now()), c, ops)
      decreases |ops|, 5
    {
      hide Running, Sound, HasTail, Attached, WellFormed, StepDone, StillThere, OpOK, Limit, CallbackDone, CalledBack, Effect;
      hide Leaked;
      NestedHasFrame(c);
      PointerUnderLimit(c);
      NoneLeft(iCallbackInfoArray, strandedEntries, Limit(c));
      MovesNot(all, own, iIP);
      hide EntriesLeft;
      ghost var s, floor, was, deep, sp := Now(), own, all, depth, iStack.iSP;
      var out, restored;
      out, left, restored, inner := Callback(op, ops);
      r := AfterNested(out, floor, was, deep, restored && !op.propagates, c);
      CallbackTurns(op, s, c, ops, inner, left, out, restored, r, Now());
      if !r.Stop? {
        EntriesLeftMore(old(iCallbackInfoArray), old(strandedEntries), old(iCallbackInfoArray), old(strandedEntries),
                        iCallbackInfoArray, strandedEntries, sp, Limit(c));
      }
    }

    /** A call, any run of its body, and the return: the caller's frame, code
        address and operands are as before, except that the arguments are gone and
        the value returned is on top. The body is the turns of a run from where the
        procedure starts. */
    method CallToReturn(aProcName: Name, args: seq<Value>, rest: seq<Value>, qCode: int, faults: Faults, c: Context, ops: seq<Op>)
      returns (end: CallEnd, left: seq<Op>, ghost start: State, ghost turns: seq<Turn>)
      requires Running() && Nested(c) && !iTrap && WellFormed(ops)
      requires own == ArgBlock(args) + rest && Passable(args) && iStack.iSP >= KSlack
      requires |all| == |c.base| ==> HasTail(rest, c.floor)
      modifies this, iStack, iStack.iCell, iGlobalTbl, iGlobalTbl.iList, iGlobalTbl.iListMark
      modifies iModules, iModules.iModule, iModules.made
      ensures |left| <= |ops|
      ensures end == Returned ==>
                && Running() && Nested(c) && all == old(all) && depth == old(depth) && iIP == old(iIP)
                && |own| == |rest| + 1 && own[1..] == rest
      ensures end.NotCalled? ==> end.err < KErrNone && Sound() && all == old(all) && depth == old(depth) && iIP == old(iIP)
      ensures end == Unwound ==> Sound() && Tail(old(all), all)
      ensures end.NotCalled? <==>
                var target := FirstWith(old(iModules.listed), aProcName);
                target.None? || !Accepts(target.value.1, args, faults, old(iStack.iSP) - 4)
      ensures end == Returned ==>
                && start.all != [] && start.all[1..] == old(all) && start.own == [] && start.listed == old(iModules.listed)
                && start.ip == qCode
                && FirstWith(start.listed, aProcName) == Some((start.all[0].frame.iModule, start.all[0].frame.iProcDef))
                && start.all[0].args == args && BodyRan(turns, c, start, ops, left, |old(all)|)
                && Now() == StateAt(turns, start, |turns|)
    {
      hide Linked, Room, ItemsOf, Accepts, Resolved, Atop, BodyRan, Unresolved, TableFails;
      hide Running, Sound, Attached, HasTail, WellFormed, ArgBlock, Passable, Moves, Tail, FirstWith, Binds, OpOK, FloorHolds;
      NestedHasFrame(c);
      left, turns := ops, [];
      ghost var base, deep, ip := all, depth, iIP;
      var n := |all|;
      var err, entered := RunProcedure(aProcName, args, rest, qCode, faults);
      start := Now();
      if !entered {
        return NotCalled(err), left, start, turns;
      }
      FrameAttached(all, base, deep, rest, c);
      JustAtop(all, base);
      if err != KErrNone {
        RunningIsSound();
        FailToCaller(err, c, n, base, rest, ip);
        return Unwound, left, start, turns;
      }
      end, left, turns := Body(ops, c, n, base, rest, ip);
      if end == Returned {
        SameDepth(base, deep, depth, c);
      }
    }

    /** An error before the first opcode of the called procedure: it has no handler. */
    method FailToCaller(err: int, c: Context, n: nat, ghost base: seq<Live>, ghost rest: seq<Value>, ghost ip: int)
      requires Sound() && Attached(all, depth, c) && depth > 0 && !iTrap
      requires Atop(all, base, rest, ip) && n == |base| >= |c.base| && |all| == n + 1 && all[0].iOnErrIP == None
      modifies this`iFrame, this`iIP, this`all, this`depth, this`own, this`iTrap, this`iErrorValue, iStack
      modifies iGlobalTbl`flat, iGlobalTbl.iList, iModules`running, iModules.made
      ensures Sound() && Tail(base, all) && iErrorValue == err
    {
      hide Running, Sound, Attached, Nested, Tail, FloorHolds, Atop, Passed;
      ghost var was := all;
      iErrorValue := err;
      var unhandled := Handle(c);
      AtopTail(was, all, base, rest, ip);
      if !unhandled {
        RunningIsSound();
      }
    }

    /** Runs the called procedure until it is gone. */
    method Body(ops: seq<Op>, c: Context, n: nat, ghost base: seq<Live>, ghost rest: seq<Value>, ghost ip: int)
      returns (end: CallEnd, left: seq<Op>, ghost turns: seq<Turn>)
      requires Running() && Nested(c) && !iTrap && WellFormed(ops)
      requires Atop(all, base, rest, ip) && n == |base| >= |c.base|
      modifies this, iStack, iStack.iCell, iGlobalTbl, iGlobalTbl.iList, iGlobalTbl.iListMark
      modifies iModules, iModules.iModule, iModules.made
      ensures |left| <= |ops|
      ensures end == Returned ==> Running() && Nested(c) && all == base && iIP == ip && |own| == |rest| + 1 && own[1..] == rest
      ensures !end.NotCalled?
      ensures end == Unwound ==> Sound() && Tail(base, all)
      ensures end == Returned ==> BodyRan(turns, c, old(Now()), ops, left, n) && Now() == StateAt(turns, old(Now()), |turns|)
    {
      hide Running, Sound, Attached, Nested, Near, Tail, FloorHolds, Atop, EntriesLeft, Limit, IsTurn, GoesOn, EndsWith, Ended;
      hide IsUnderWay, OpsAt, StateAt, FlagKept, Leaked, StillThere, BodyRan;
      NothingYet(c, Now(), ops);
      left, turns := ops, [];
      ghost var start := Now();
      while left != []
        invariant |left| <= |ops| && WellFormed(left)
        invariant Running() && Nested(c) && !iTrap && Kept() && Atop(all, base, rest, ip)
        invariant IsUnderWay(turns, c, start, ops) && left == OpsAt(turns, ops, |turns|) && Now() == StateAt(turns, start, |turns|)
        invariant forall i :: 0 <= i < |turns| ==> |turns[i].next.all| > n
        decreases |left|
      {
        var ended, out;
        ghost var t, now, was := *, left, all;
        NestedHasTail(c);
        ended, out, left, t := OneTurn(c, left);
        if ended {
          EndOfBody(out, c, was, base, rest, ip);
          return if out.Failed? then Unwound else NotReturned, left, turns;
        }
        AtopTurn(t, c, now[1..], base, rest, ip);
        OneTurnMore(turns, c, start, ops, t);
        ghost var before := turns;
        turns := turns + [t];
        if |all| <= n {
          RunningIsSound();
          if out == Finished {
            BodyHasRan(before, t, c, start, ops, left, n);
          }
          return if out == Finished then Returned else Unwound, left, turns;
        }
      }
      end := NotReturned;
    }

    /** The Execute around it ends before the procedure does. */
    lemma {:induction false} EndOfBody(out: Outcome, c: Context, was: seq<Live>, base: seq<Live>, rest: seq<Value>, ip: int)
      requires Ended(out, c) && Atop(was, base, rest, ip) && Tail(was, c.base) && |base| >= |c.base|
      ensures out.Failed? ==> Sound() && Tail(base, all)
    {
      hide Sound, Running, Atop, Tail, Leaked, StillThere, FloorHolds;
      if out.Failed? {
        AtopTail(was, c.base, base, rest, ip);
      }
    }

    lemma {:induction false} NestedHasTail(c: Context)
      requires Nested(c)
      ensures Tail(all, c.base)
    {
    }

    lemma {:induction false} AllThere(c: Context)
      requires Running() && Nested(c)
      ensures Sound() && StillThere(all, c.base)
    {
      hide Running, Sound;
      RunningIsSound();
      TailIsThere(all, c.base);
    }
  }
}
