/** Procedure frames, and what the shared stack, the globals table and the module
    counts have to be for a given list of live frames. */
module Frames {
  import opened Wrappers
  import opened Stack
  import opened GlobalsTable
  import opened Modules

  /** What ConstructL sets; the fields that change later are in Live. */
  class CFrame {
    const iPrevFrame: CFrame?
    const iReturnIP: int
    const iSP: int
    const iModule: CModule
    const iProcDef: ProcDef
    const iCalledByString: bool
    /** The parameters' part of iIndirectTbl. */
    const iParamTbl: seq<int>

    constructor (prev: CFrame?, returnIP: int, sp: int, m: CModule, p: ProcDef, byString: bool, paramTbl: seq<int>)
      ensures iPrevFrame == prev && iReturnIP == returnIP && iSP == sp
      ensures iModule == m && iProcDef == p && iCalledByString == byString && iParamTbl == paramTbl
    {
      iPrevFrame, iReturnIP, iSP := prev, returnIP, sp;
      iModule, iProcDef, iCalledByString, iParamTbl := m, p, byString, paramTbl;
    }
  }

  /** A live frame: its handler, how often it is inside EVAL and the globals' part
      of its iIndirectTbl, all of which change only while it is the innermost; and
      the arguments it was given (last first), the name it was called by when
      called by name, and the operands its caller had below them. */
  datatype Live = Live(
    frame: CFrame, iOnErrIP: Option<int>, iEvalNestCount: int, iExternTbl: seq<int>,
    args: seq<Value>, name: Option<seq<int>>, own: seq<Value>,
    ghost added: seq<TOplGlobal>, ghost cell: int)
  {
    /** What the caller left on the stack: the call, then its own operands. */
    ghost function Block(): seq<Value> {
      CallBlock(args) + (NamePart(name) + own)
    }

    /** The frame is what ConstructL made it, from sp on. */
    ghost predicate Made(sp: int) {
      && frame.iSP == sp && sp - KReserve >= frame.iProcDef.iMaxStack
      && Passable(args) && frame.iParamTbl == ParamTable(sp + 4, args) && name.Some? == frame.iCalledByString
      && Added(added, frame.iProcDef.iGlobals, cell)
    }
  }

  function NamePart(name: Option<seq<int>>): seq<Value> {
    match name
    case None => []
    case Some(s) => [Str(s)]
  }

  // Lists of frames are innermost first.

  /** The stack from the innermost frame's pointer up. */
  ghost function ItemsOf(fs: seq<Live>): seq<Value> {
    if fs == [] then [] else fs[0].Block() + ItemsOf(fs[1..])
  }

  /** The globals table as one list. */
  ghost function GlobalsOf(fs: seq<Live>): seq<TOplGlobal> {
    if fs == [] then [] else fs[0].added + GlobalsOf(fs[1..])
  }

  ghost function ModulesOf(fs: seq<Live>): seq<CModule> {
    if fs == [] then [] else [fs[0].frame.iModule] + ModulesOf(fs[1..])
  }

  ghost predicate AllMade(fs: seq<Live>, root: int) {
    fs == [] || (fs[0].Made(root - TotalSize(ItemsOf(fs))) && AllMade(fs[1..], root))
  }

  /** The strings among the operands, and among those of every caller, leave each
      procedure the room that it declared. */
  ghost predicate Room(fs: seq<Live>, own: seq<Value>) {
    fs == [] || (LeavesRoom(own, fs[0].frame.iSP, fs[0].frame.iProcDef.iMaxStack) && Room(fs[1..], fs[0].own))
  }

  /** The same for the callers alone. */
  ghost predicate RoomBelow(fs: seq<Live>) {
    fs == [] || Room(fs[1..], fs[0].own)
  }

  /** The value, on top of the operands of a procedure, leaves the room that
      procedure declared: this is what nobody checks when a string is returned. */
  ghost predicate FitsCaller(v: Value, fs: seq<Live>, own: seq<Value>) {
    v.Str? && fs != [] ==>
      Size(v) + StringBytes(own) + fs[0].frame.iProcDef.iMaxStack / 4 * 4 <= fs[0].frame.iSP - KReserve
  }

  lemma {:induction false} RoomWithValue(v: Value, fs: seq<Live>, own: seq<Value>)
    ensures Room(fs, own) ==> (Room(fs, [v] + own) <==> FitsCaller(v, fs, own))
  {
    assert ([v] + own)[1..] == own;
    if fs != [] {
      RoomPush(v, own, fs[0].frame.iSP, fs[0].frame.iProcDef.iMaxStack);
    }
  }

  lemma {:induction false} RoomWithout(newer: seq<Value>, fs: seq<Live>, own: seq<Value>)
    ensures Room(fs, newer + own) ==> Room(fs, own)
  {
    if fs != [] {
      RoomDrop(newer, own, fs[0].frame.iSP, fs[0].frame.iProcDef.iMaxStack);
    }
  }

  /** A frame found its declared room free when it was made. */
  lemma {:induction false} RoomCleared(fs: seq<Live>, root: int)
    requires AllMade(fs, root) && RoomBelow(fs)
    ensures Room(fs, [])
  {
  }

  /** A string that left the declared room below itself. */
  lemma {:induction false} RoomWithString(v: Value, fs: seq<Live>, own: seq<Value>, root: int, sp: int)
    requires fs != [] && AllMade(fs, root) && sp == root - TotalSize(own) - TotalSize(ItemsOf(fs)) - Size(v)
    requires v.Str? && sp >= KReserve + fs[0].frame.iProcDef.iMaxStack
    ensures Room(fs, own) ==> Room(fs, [v] + own)
  {
    assert ([v] + own)[1..] == own;
    RoomPush(v, own, fs[0].frame.iSP, fs[0].frame.iProcDef.iMaxStack);
  }

  lemma {:induction false} RoomAfterCall(l: Live, fs: seq<Live>, sp: int)
    requires l.Made(sp)
    ensures Room(fs, l.own) ==> Room([l] + fs, [])
  {
    assert ([l] + fs)[1..] == fs;
    NoStrings(sp, l.frame.iProcDef.iMaxStack);
  }

  function TopFrame(fs: seq<Live>, depth: nat): CFrame? {
    if depth == 0 || fs == [] then null else fs[0].frame
  }

  /** The first depth frames are chained by iPrevFrame, the last of them to NULL. */
  ghost predicate Linked(fs: seq<Live>, depth: nat) {
    depth == 0 || (fs != [] && fs[0].frame.iPrevFrame == TopFrame(fs[1..], depth - 1) && Linked(fs[1..], depth - 1))
  }

  /** All there is to know about the innermost frame. */
  lemma {:induction false} Innermost(fs: seq<Live>, root: int, depth: nat)
    requires AllMade(fs, root) && Linked(fs, depth) && depth > 0
    ensures fs != [] && fs[0].Made(root - TotalSize(ItemsOf(fs))) && TopFrame(fs, depth) == fs[0].frame
    ensures fs[0].frame.iPrevFrame == TopFrame(fs[1..], depth - 1)
    ensures AllMade(fs[1..], root) && Linked(fs[1..], depth - 1)
    ensures ItemsOf(fs) == fs[0].Block() + ItemsOf(fs[1..])
    ensures GlobalsOf(fs) == fs[0].added + GlobalsOf(fs[1..])
    ensures ModulesOf(fs) == [fs[0].frame.iModule] + ModulesOf(fs[1..])
  {
  }

  /** A new innermost frame. */
  lemma {:induction false} FrameAdded(l: Live, fs: seq<Live>, root: int, depth: nat)
    requires AllMade(fs, root) && Linked(fs, depth)
    requires l.Made(root - TotalSize(l.Block()) - TotalSize(ItemsOf(fs)))
    requires l.frame.iPrevFrame == TopFrame(fs, depth)
    ensures AllMade([l] + fs, root) && Linked([l] + fs, depth + 1) && TopFrame([l] + fs, depth + 1) == l.frame
    ensures ItemsOf([l] + fs) == l.Block() + ItemsOf(fs)
    ensures GlobalsOf([l] + fs) == l.added + GlobalsOf(fs)
    ensures ModulesOf([l] + fs) == [l.frame.iModule] + ModulesOf(fs)
  {
    assert ([l] + fs)[1..] == fs;
    TotalSizeConcat(l.Block(), ItemsOf(fs));
  }

  lemma {:induction false} LinkedDepth(fs: seq<Live>, depth: nat)
    requires Linked(fs, depth)
    ensures depth <= |fs|
  {
    if depth > 0 {
      LinkedDepth(fs[1..], depth - 1);
    }
  }

  /** The older frames are the tail of the list. */
  ghost predicate Tail(fs: seq<Live>, base: seq<Live>) {
    |base| <= |fs| && fs[|fs| - |base|..] == base
  }

  lemma {:induction false} TailDrop(fs: seq<Live>, base: seq<Live>)
    requires Tail(fs, base) && |base| < |fs|
    ensures Tail(fs[1..], base)
  {
    assert fs[1..][|fs| - 1 - |base|..] == fs[|fs| - |base|..];
  }

  lemma {:induction false} TailAdd(l: Live, fs: seq<Live>, base: seq<Live>)
    requires Tail(fs, base)
    ensures Tail([l] + fs, base)
  {
    assert ([l] + fs)[|fs| + 1 - |base|..] == fs[|fs| - |base|..];
  }

  lemma {:induction false} TailFull(fs: seq<Live>, base: seq<Live>)
    requires Tail(fs, base) && |fs| == |base|
    ensures fs == base
  {
  }

  /** The innermost frame with another handler, nest count or table. */
  ghost predicate SameButState(l: Live, m: Live) {
    l.frame == m.frame && l.args == m.args && l.name == m.name && l.own == m.own && l.added == m.added && l.cell == m.cell
  }

  lemma {:induction false} StateChanged(fs: seq<Live>, l: Live, root: int, depth: nat)
    requires fs != [] && SameButState(fs[0], l)
    ensures ItemsOf([l] + fs[1..]) == ItemsOf(fs) && GlobalsOf([l] + fs[1..]) == GlobalsOf(fs)
    ensures ModulesOf([l] + fs[1..]) == ModulesOf(fs)
    ensures AllMade(fs, root) ==> AllMade([l] + fs[1..], root)
    ensures Linked(fs, depth) ==> Linked([l] + fs[1..], depth)
    ensures TopFrame([l] + fs[1..], depth) == TopFrame(fs, depth)
    ensures RoomBelow([l] + fs[1..]) == RoomBelow(fs)
    ensures forall own :: Room([l] + fs[1..], own) == Room(fs, own)
  {
    assert ([l] + fs[1..])[1..] == fs[1..];
    assert l.Block() == fs[0].Block();
  }

  /** The top of the cell holds what the frames left there; what is below the
      innermost frame's pointer may be anything. */
  ghost predicate StackHolds(cell: seq<byte>, fs: seq<Live>) {
    && TotalSize(ItemsOf(fs)) <= |cell|
    && HoldsAll(cell[|cell| - TotalSize(ItemsOf(fs))..], ItemsOf(fs))
  }

  /** The cell has not changed from sp up. */
  ghost predicate SameFrom(was: seq<byte>, now: seq<byte>, sp: int) {
    0 <= sp <= |was| == |now| && was[sp..] == now[sp..]
  }

  /** Seen as slices of the array. */
  lemma {:induction false} SameSlices(cell: array<byte>, was: seq<byte>, sp: int)
    requires 0 <= sp <= |was| == cell.Length
    ensures SameFrom(was, cell[..], sp) <==> cell[sp..] == was[sp..]
  {
    assert cell[..][sp..] == cell[sp..];
  }

  lemma {:induction false} SameCell(cell: seq<byte>, sp: int)
    requires 0 <= sp <= |cell|
    ensures SameFrom(cell, cell, sp)
  {
  }

  lemma {:induction false} SameFurtherUp(was: seq<byte>, mid: seq<byte>, now: seq<byte>, sp: int, to: int)
    requires SameFrom(was, mid, to) && SameFrom(mid, now, sp) && sp <= to
    ensures SameFrom(was, now, to)
  {
    assert mid[to..] == mid[sp..][to - sp..] == now[sp..][to - sp..] == now[to..];
  }

  /** Operands above the frames do not matter to them. */
  lemma {:induction false} StackHoldsBelow(cell: seq<byte>, sp: nat, own: seq<Value>, fs: seq<Live>)
    requires sp <= |cell| && HoldsAll(cell[sp..], own + ItemsOf(fs))
    ensures StackHolds(cell, fs)
    ensures sp == |cell| - TotalSize(own) - TotalSize(ItemsOf(fs))
  {
    HoldsAllDrop(cell[sp..], own, ItemsOf(fs));
    HoldsAllSize(cell[sp..], own + ItemsOf(fs));
    TotalSizeConcat(own, ItemsOf(fs));
    assert cell[sp..][TotalSize(own)..] == cell[|cell| - TotalSize(ItemsOf(fs))..];
  }

  /** Without its innermost frame. */
  lemma {:induction false} StackHoldsDrop(cell: seq<byte>, fs: seq<Live>)
    requires StackHolds(cell, fs) && fs != []
    ensures StackHolds(cell, fs[1..])
  {
    StackHoldsBelow(cell, |cell| - TotalSize(ItemsOf(fs)), fs[0].Block(), fs[1..]);
  }

  /** A value above the frames, and the position it leads up to. */
  lemma {:induction false} ValueOnTop(cell: seq<byte>, sp: nat, v: Value, fs: seq<Live>)
    requires sp <= |cell| && HoldsAll(cell[sp..], [v] + ItemsOf(fs))
    ensures sp + Size(v) == |cell| - TotalSize(ItemsOf(fs))
    ensures Holds(cell[sp..sp + Size(v)], v) && HoldsAll(cell[sp + Size(v)..], ItemsOf(fs))
  {
    var items := [v] + ItemsOf(fs);
    assert items[0] == v && items[1..] == ItemsOf(fs);
    assert cell[sp..][..Size(v)] == cell[sp..sp + Size(v)];
    assert cell[sp..][Size(v)..] == cell[sp + Size(v)..];
    HoldsAllSize(cell[sp + Size(v)..], ItemsOf(fs));
  }

  /** What the caller pushed, on top of what it had. */
  lemma {:induction false} BlockSplit(l: Live, rest: seq<Value>)
    ensures l.Block() + rest == CallBlock(l.args) + (NamePart(l.name) + (l.own + rest))
    ensures l.name.None? ==> NamePart(l.name) + (l.own + rest) == l.own + rest
    ensures l.name.Some? ==> NamePart(l.name) + (l.own + rest) == [Str(l.name.value)] + (l.own + rest)
  {
    assert (NamePart(l.name) + l.own) + rest == NamePart(l.name) + (l.own + rest);
  }

  /** The declared parameters and the arguments agree in number and types. */
  ghost predicate Matches(params: seq<int>, args: seq<Value>) {
    |params| == |args| && forall i :: 0 <= i < |args| ==> params[i] == TypeOf(args[i])
  }

  datatype ParamResult = Fits | NumArg | TypeViol | NoTable

  /** The first parameters have the declared types. */
  ghost predicate MatchSoFar(params: seq<int>, args: seq<Value>, k: nat) {
    |params| == |args| && k <= |args| && forall i :: 0 <= i < k ==> params[i] == TypeOf(args[i])
  }

  /** There is memory for the table of parameters: one allocation for the table, if
      there is to be one, and one for each entry. The given one fails. */
  predicate TableFits(params: seq<int>, tableFailAt: nat) {
    params == [] || tableFailAt > |params|
  }

  /** Memory runs out before anything is found wrong with the arguments. */
  ghost predicate TableEnds(params: seq<int>, args: seq<Value>, tableFailAt: nat) {
    params != [] && (tableFailAt == 0 || (tableFailAt <= |params| && MatchSoFar(params, args, tableFailAt)))
  }

  /** Checks the arguments and enters where they lie, the first parameter first;
      they stay where the caller pushed them. */
  method GetParamsL(aStack: CStack, params: seq<int>, tableFailAt: nat, ghost args: seq<Value>, ghost rest: seq<Value>)
    returns (r: ParamResult, iIndirectTbl: seq<int>)
    requires aStack.Valid() && aStack.items == CallBlock(args) + rest && Passable(args)
    modifies aStack
    ensures r == NoTable <==> TableEnds(params, args, tableFailAt)
    ensures r == NumArg <==> (params == [] || tableFailAt > 0) && |params| != |args|
    ensures r == Fits <==> TableFits(params, tableFailAt) && Matches(params, args)
    ensures r == Fits ==> aStack.Valid() && aStack.iSP == old(aStack.iSP) && aStack.items == old(aStack.items)
    ensures r == Fits ==> iIndirectTbl == ParamTable(old(aStack.iSP) + 4, args)
  {
    hide CStack.Valid, CStack.Above, ArgBlock, Size, ParamTable, TypeOf, HoldsAll;
    iIndirectTbl := [];
    if params != [] && tableFailAt == 0 {
      return NoTable, [];
    }
    var iSP := aStack.StackPtr();
    ghost var cell, items := aStack.iCell[..], aStack.items;
    KnownPosition(aStack);
    var ok := aStack.CheckParamCountL(|params|);
    if !ok {
      return NumArg, [];
    }
    assert aStack.items == ArgBlock(args) + rest && args[0..] == args;
    var ii := 0;
    while ii < |params|
      invariant 0 <= ii <= |params| == |args| && aStack.iCell[..] == cell
      invariant aStack.Valid() && aStack.items == ArgBlock(args[ii..]) + rest
      invariant |iIndirectTbl| == ii && (ii > 0 ==> tableFailAt > ii)
      invariant forall i :: 0 <= i < ii ==> params[i] == TypeOf(args[i])
      invariant ParamTable(old(aStack.iSP) + 4, args) == ParamTable(aStack.iSP, args[ii..]) + iIndirectTbl
    {
      ArgBlockStep(args, ii, rest);
      ParamTableStep(aStack.iSP, args[ii..]);
      assert args[ii..][1..] == args[ii + 1..];
      var ptr;
      ok, ptr := aStack.NextParamL(params[ii]);
      if !ok {
        return TypeViol, [];
      }
      if tableFailAt == ii + 1 {
        return NoTable, [];
      }
      iIndirectTbl := [ptr] + iIndirectTbl;
      ii := ii + 1;
    }
    NoMoreParams(aStack.iSP, args[ii..], iIndirectTbl);
    aStack.SetStackPtr(iSP, items);
    r := Fits;
  }

  lemma {:induction false} NoMoreParams(sp: int, none: seq<Value>, table: seq<int>)
    requires none == []
    ensures ParamTable(sp, none) + table == table
  {
  }

  lemma {:induction false} KnownPosition(aStack: CStack)
    requires aStack.Valid()
    ensures aStack.iCell.Length >= KMinimumCell && aStack.iCell.Length % 4 == 0
    ensures aStack.Above(aStack.iSP, aStack.items)
  {
  }

  lemma {:induction false} ArgsBelowCount(cell: seq<byte>, sp: nat, args: seq<Value>, below: seq<Value>)
    requires sp <= |cell| && HoldsAll(cell[sp..], CallBlock(args) + below)
    ensures sp + 4 <= |cell| && HoldsAll(cell[sp + 4..], ArgBlock(args) + below)
  {
    hide HoldsAll, ArgBlock;
    var count := [Int16(|args|)];
    assert CallBlock(args) + below == count + (ArgBlock(args) + below);
    HoldsAllDrop(cell[sp..], count, ArgBlock(args) + below);
    assert count[1..] == [];
    assert cell[sp..][4..] == cell[sp + 4..];
  }

  lemma {:induction false} OwnParametersIntact(cell: seq<byte>, sp: nat, l: Live, rest: seq<Value>)
    requires sp <= |cell| && HoldsAll(cell[sp..], l.Block() + rest) && l.Made(sp)
    ensures Points(cell, l.frame.iParamTbl, l.args)
  {
    hide HoldsAll, ArgBlock, Live.Block, NamePart, Points, ParamTable, Added, CallBlock;
    BlockSplit(l, rest);
    ArgsBelowCount(cell, sp, l.args, NamePart(l.name) + (l.own + rest));
    ParamTableHolds(cell, sp + 4, l.args, NamePart(l.name) + (l.own + rest));
  }

  /** However deep the calls below it are nested, and whatever lies below: the
      parameters of a live frame are where its table says, unchanged. */
  lemma {:induction false} ParametersIntact(cell: seq<byte>, fs: seq<Live>, k: nat)
    requires k < |fs| && AllMade(fs, |cell|) && StackHolds(cell, fs)
    ensures Points(cell, fs[k].frame.iParamTbl, fs[k].args)
    decreases k
  {
    if k > 0 {
      StackHoldsDrop(cell, fs);
      ParametersIntact(cell, fs[1..], k - 1);
    } else {
      OwnParametersIntact(cell, |cell| - TotalSize(ItemsOf(fs)), fs[0], ItemsOf(fs[1..]));
    }
  }

  /** The operands of the caller of a live frame, and everything older. */
  lemma {:induction false} LowerHolds(cell: seq<byte>, fs: seq<Live>, k: nat)
    requires k < |fs| && StackHolds(cell, fs)
    ensures
      var sp := |cell| - TotalSize(fs[k].own) - TotalSize(ItemsOf(fs[k + 1..]));
      0 <= sp && HoldsAll(cell[sp..], fs[k].own + ItemsOf(fs[k + 1..]))
    decreases k
  {
    if k > 0 {
      StackHoldsDrop(cell, fs);
      assert fs[1..][k..] == fs[k + 1..];
      LowerHolds(cell, fs[1..], k - 1);
    } else {
      OwnHolds(cell, |cell| - TotalSize(ItemsOf(fs)), fs[0], ItemsOf(fs[1..]));
    }
  }

  /** A frame, what it was called with and what its caller had lie above the frames
      below it. */
  lemma {:induction false} FramesTake(fs: seq<Live>, k: nat)
    requires k < |fs|
    ensures TotalSize(ItemsOf(fs)) >= 4 + TotalSize(fs[k].own) + TotalSize(ItemsOf(fs[k + 1..]))
    decreases k
  {
    var block := fs[0].Block();
    TotalSizeConcat(block, ItemsOf(fs[1..]));
    if k > 0 {
      assert fs[1..][k..] == fs[k + 1..];
      FramesTake(fs[1..], k - 1);
    } else {
      TotalSizeConcat(CallBlock(fs[0].args), NamePart(fs[0].name) + fs[0].own);
      TotalSizeConcat(NamePart(fs[0].name), fs[0].own);
      assert CallBlock(fs[0].args)[1..] == ArgBlock(fs[0].args);
    }
  }

  lemma {:induction false} OwnHolds(cell: seq<byte>, sp: nat, l: Live, rest: seq<Value>)
    requires sp <= |cell| && HoldsAll(cell[sp..], l.Block() + rest)
    ensures
      var below := |cell| - TotalSize(l.own) - TotalSize(rest);
      0 <= below && HoldsAll(cell[below..], l.own + rest)
  {
    hide HoldsAll, CallBlock, NamePart, TotalSize;
    var call := CallBlock(l.args) + NamePart(l.name);
    assert l.Block() + rest == call + (l.own + rest);
    HoldsAllDrop(cell[sp..], call, l.own + rest);
    HoldsAllSize(cell[sp..], call + (l.own + rest));
    TotalSizeConcat(call, l.own + rest);
    TotalSizeConcat(l.own, rest);
    assert cell[sp..][TotalSize(call)..] == cell[sp + TotalSize(call)..];
  }
}
