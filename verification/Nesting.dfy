/** What a run of opcodes is made of, and what one Execute may do to the frames and
    operands of the code it interrupts. */
module Nesting {
  import opened Wrappers
  import opened Stack
  import opened GlobalsTable
  import opened Modules
  import opened Frames

  const KErrNone := 0
  const KErrNotFound := -1
  const KErrNoMemory := -4
  /** 0xabcd0000 as a signed number. */
  const KOplErrorBase := -0x5433_0000
  const KOplErrNoMemory := KOplErrorBase + 0x1_0000 - 10
  const KOplErrNumArg := KOplErrorBase + 0x1_0000 - 97
  const KOplErrUndef := KOplErrorBase + 0x1_0000 - 98
  const KOplErrNoProc := KOplErrorBase + 0x1_0000 - 99
  const KOplErrModLoad := KOplErrorBase + 0x1_0000 - 104
  const KOplErrMaxLoad := KOplErrorBase + 0x1_0000 - 105
  const KOplErrModNotLoaded := KOplErrorBase + 0x1_0000 - 108
  const KOplErrTypeViol := KOplErrorBase + 0x1_0000 - 110
  const KOplErrStopInCallback := KOplErrorBase + 0x1_0000 - 124

  datatype SCallbackInfo = SCallbackInfo(iStackPtr: int, iParamCount: nat)

  /** What may be missing in the environment while a procedure is entered, and
      where its data is allocated. Of the allocations for its globals, and of those
      for the table of its parameters and externals, the given one fails. */
  datatype Faults = Faults(noFrame: bool, noProcedure: bool, noCell: bool, globalsFailAt: nat, tableFailAt: nat, cell: int)

  /** Memory runs out while the externals are entered, behind the parameters. */
  predicate TableFails(p: ProcDef, tableFailAt: nat) {
    p.iExternals != [] && tableFailAt < 1 + |p.iParamList| + |p.iExternals|
  }

  /** The opcodes of a run, each with what the environment does. */
  datatype Op =
    | PushOp(v: Value)
    | DropOp
    | FailOp(err: int, pops: nat)
    | TrapOp(err: int)
    | OnErrOp(handler: Option<int>)
    | JumpOp(ip: int)
    | LoadOp(fileName: Name, file: Option<seq<ProcDef>>)
    | UnloadOp(fileName: Name)
    | CallOp(procName: Name, n: nat, qCode: int, faults: Faults)
    | CallByNameOp(folded: Name, aType: TText, n: nat, qCode: int, faults: Faults)
    | ReturnOp
    | ZeroReturnOp(zero: Value)
    | EvalOp(translateErr: int, maxStackDepth: nat, qCode: int)
    | EvalEndOp
    | StopOp
    | CallbackOp(name: seq<int>, args: seq<Value>, folded: Name, aType: TText, qCode: int, noEntry: bool, faults: Faults,
                 propagates: bool)

  ghost predicate OpOK(op: Op) {
    match op
    case PushOp(v) => InRange(v)
    case FailOp(err, _) => err < KErrNone
    case TrapOp(err) => err <= KErrNone
    case EvalOp(err, _, _) => err <= KErrNone
    case ZeroReturnOp(zero) => IsZero(zero)
    case CallbackOp(name, args, folded, _, _, _, _, _) =>
      InRange(Str(name)) && Passable(args) && AllInRange(args) && |folded| == |name|
    case _ => true
  }

  ghost predicate WellFormed(ops: seq<Op>) {
    forall i :: 0 <= i < |ops| ==> OpOK(ops[i])
  }

  ghost predicate IsZero(v: Value)
    ensures IsZero(v) ==> InRange(v)
  {
    v == Int16(0) || v == Int32(0) || v == Real([0, 0, 0, 0, 0, 0, 0, 0]) || v == Str([])
  }

  datatype StepResult = Continue | Leave(err: int) | Exit | Stop(out: Outcome)

  /** How an Execute ends: STOP ends it without a value and leaves its frames. The
      last three are ends of the observation only: a callback left a frame behind,
      STOP ended an expression, or there are no more opcodes. */
  datatype Outcome = Finished | Failed(err: int) | Stopped | FrameLost | StopInEval | Exhausted

  /** The run is not followed to its end. */
  predicate CutShort(out: Outcome) {
    out == StopInEval || out == Exhausted
  }

  /** Whether a callback leaves frames behind: it does at once, because of its
      procedure's externals; or STOP ended it; or one inside it did. */
  datatype Loss = NoLoss | AtStart | ByStop | Inside

  datatype CallEnd = Returned | NotCalled(err: int) | Unwound | NotReturned

  /** What an Execute was started on: the live frames, how many of them belong to
      the Execute it interrupts, that one's operands, and the code address a
      callback returns to. */
  datatype Context = Context(base: seq<Live>, baseDepth: nat, floor: seq<Value>, retIP: int)

  ghost predicate HasTail(own: seq<Value>, floor: seq<Value>) {
    |floor| <= |own| && own[|own| - |floor|..] == floor
  }

  lemma {:induction false} TailTakes(own: seq<Value>, floor: seq<Value>)
    ensures HasTail(own, floor) ==> TotalSize(own) >= TotalSize(floor)
  {
    if HasTail(own, floor) {
      TotalSizeConcat(own[..|own| - |floor|], floor);
      assert own == own[..|own| - |floor|] + floor;
    }
  }

  lemma {:induction false} HasTailPush(v: Value, own: seq<Value>, floor: seq<Value>)
    ensures HasTail(own, floor) ==> HasTail([v] + own, floor)
  {
    if HasTail(own, floor) {
      assert ([v] + own)[|own| + 1 - |floor|..] == own[|own| - |floor|..];
    }
  }

  lemma {:induction false} HasTailDrop(own: seq<Value>, floor: seq<Value>)
    ensures HasTail(own, floor) && |own| > |floor| ==> HasTail(own[1..], floor)
  {
    if HasTail(own, floor) && |own| > |floor| {
      assert own[1..][|own| - 1 - |floor|..] == own[|own| - |floor|..];
    }
  }

  /** The outermost frame of this Execute. */
  ghost predicate Grounded(l: Live, c: Context) {
    if c.baseDepth == 0 then l.own == c.floor && l.frame.iReturnIP == c.retIP else HasTail(l.own, c.floor)
  }

  /** The frames from before this Execute are still there, below those it made,
      of which none is evaluating an expression; the operands from before it are
      still below its own. */
  ghost predicate Attached(fs: seq<Live>, depth: nat, c: Context)
  {
    && |c.base| <= |fs| && Tail(fs, c.base) && depth == |fs| - |c.base| + c.baseDepth
    && (forall i :: 0 <= i < |fs| - |c.base| ==> fs[i].iEvalNestCount == 0)
    && (c.baseDepth > 0 ==> c.base != [] && fs[|fs| - |c.base|].iEvalNestCount > 0)
    && (|fs| > |c.base| ==> Grounded(fs[|fs| - |c.base| - 1], c))
  }

  /** Neither evaluating an expression nor with a handler of its own. */
  ghost predicate Passed(fs: seq<Live>, k: nat)
  {
    k <= |fs| && forall i :: 0 <= i < k ==> fs[i].iEvalNestCount == 0 && fs[i].iOnErrIP == None
  }

  /** The stack still holds everything from before this Execute. */
  ghost predicate FloorHolds(cell: seq<byte>, c: Context) {
    var sp := |cell| - TotalSize(c.floor) - TotalSize(ItemsOf(c.base));
    0 <= sp && HoldsAll(cell[sp..], c.floor + ItemsOf(c.base))
  }

  /** Of the frames above base, the outermost was called with rest below its
      arguments, from the code at ip. */
  ghost predicate Atop(fs: seq<Live>, base: seq<Live>, rest: seq<Value>, ip: int) {
    && Tail(fs, base) && |fs| > |base|
    && fs[|fs| - |base| - 1].own == rest && fs[|fs| - |base| - 1].frame.iReturnIP == ip
  }

  lemma {:induction false} TailSelf(fs: seq<Live>)
    ensures Tail(fs, fs)
  {
  }

  lemma {:induction false} SameDepth(fs: seq<Live>, depth: nat, deep: nat, c: Context)
    requires Attached(fs, depth, c) && Attached(fs, deep, c)
    ensures depth == deep
  {
  }

  lemma {:induction false} JustAtop(fs: seq<Live>, base: seq<Live>)
    requires fs != [] && fs[1..] == base
    ensures Atop(fs, base, fs[0].own, fs[0].frame.iReturnIP)
  {
  }

  lemma {:induction false} AtopMore(was: seq<Live>, now: seq<Live>, base: seq<Live>, rest: seq<Value>, ip: int)
    requires Atop(was, base, rest, ip) && now != [] && now[1..] == was
    ensures Atop(now, base, rest, ip)
  {
    assert now == [now[0]] + was;
    TailAdd(now[0], was, base);
  }

  lemma {:induction false} AtopGone(was: seq<Live>, base: seq<Live>, rest: seq<Value>, ip: int)
    requires Atop(was, base, rest, ip)
    ensures if |was| - 1 > |base| then Atop(was[1..], base, rest, ip)
            else was[1..] == base && was[0].own == rest && was[0].frame.iReturnIP == ip
  {
    TailDrop(was, base);
    if |was| - 1 > |base| {
      assert was[1..][|was| - 1 - |base| - 1] == was[|was| - |base| - 1];
    }
  }

  lemma {:induction false} AtopNear(was: seq<Live>, now: seq<Live>, base: seq<Live>, rest: seq<Value>, ip: int)
    requires Atop(was, base, rest, ip) && Near(was, now)
    ensures |now| > |base| ==> Atop(now, base, rest, ip)
    ensures |now| <= |base| ==> now == base && |now| < |was| && was[0].own == rest && was[0].frame.iReturnIP == ip
  {
    if now != [] && now[1..] == was {
      AtopMore(was, now, base, rest, ip);
    } else {
      AtopGone(was, base, rest, ip);
      if now != was[1..] && |was| - 1 > |base| {
        AtopMore(was[1..], now, base, rest, ip);
      }
    }
  }

  lemma {:induction false} AtopTail(was: seq<Live>, now: seq<Live>, base: seq<Live>, rest: seq<Value>, ip: int)
    requires Atop(was, base, rest, ip) && Tail(was, now)
    ensures |now| > |base| ==> Atop(now, base, rest, ip)
    ensures |now| <= |base| ==> Tail(base, now)
  {
    var k := |was| - |now|;
    assert now == was[k..];
    if |now| > |base| {
      assert was[k..][|now| - |base|..] == was[|was| - |base|..];
      assert was[k..][|now| - |base| - 1] == was[|was| - |base| - 1];
    } else {
      assert was[|was| - |base|..][|base| - |now|..] == was[k..];
    }
  }

  /** What one opcode does to the list of frames: a new one on top, or the innermost
      one changed, or gone. */
  ghost predicate Near(was: seq<Live>, now: seq<Live>) {
    && was != []
    && ((now != [] && now[1..] == was)
        || (now != [] && now[1..] == was[1..] && SameButState(was[0], now[0]))
        || now == was[1..])
  }

  /** When the innermost frame goes, one value is left to its caller. */
  ghost predicate Moves(was: seq<Live>, now: seq<Live>, own: seq<Value>, ip: int) {
    Near(was, now) && (|now| < |was| ==> own != [] && own[1..] == was[0].own && ip == was[0].frame.iReturnIP)
  }

  lemma {:induction false} ReturnMoves(fs: seq<Live>, own: seq<Value>, ip: int)
    requires fs != [] && own != [] && own[1..] == fs[0].own && ip == fs[0].frame.iReturnIP
    ensures Moves(fs, fs[1..], own, ip)
  {
  }

  lemma {:induction false} JustGone(fs: seq<Live>)
    requires fs != []
    ensures Near(fs, fs[1..])
  {
  }

  lemma {:induction false} NewFrame(was: seq<Live>, now: seq<Live>, entered: bool, own: seq<Value>, ip: int)
    requires was != [] && if entered then now != [] && now[1..] == was else now == was
    ensures Moves(was, now, own, ip) && Near(was, now)
  {
  }

  lemma {:induction false} TopMoves(was: seq<Live>, now: seq<Live>, own: seq<Value>, ip: int)
    requires was != [] && now != [] && now[1..] == was[1..] && SameButState(was[0], now[0])
    ensures Moves(was, now, own, ip) && Near(was, now)
  {
  }

  lemma {:induction false} MovesNot(fs: seq<Live>, own: seq<Value>, ip: int)
    requires fs != []
    ensures Moves(fs, fs, own, ip) && Near(fs, fs)
  {
  }

  /** The same frames, whatever state they are in. */
  ghost predicate StillThere(fs: seq<Live>, base: seq<Live>) {
    |base| <= |fs| && forall i :: 0 <= i < |base| ==> SameButState(fs[|fs| - |base| + i], base[i])
  }

  lemma {:induction false} TailIsThere(fs: seq<Live>, base: seq<Live>)
    requires Tail(fs, base)
    ensures StillThere(fs, base)
  {
    assert forall i :: 0 <= i < |base| ==> fs[|fs| - |base|..][i] == base[i];
  }

  lemma {:induction false} StillThereTrans(fs: seq<Live>, mid: seq<Live>, base: seq<Live>)
    requires StillThere(fs, mid) && StillThere(mid, base)
    ensures StillThere(fs, base)
  {
    var k := |mid| - |base|;
    forall i | 0 <= i < |base|
      ensures SameButState(fs[|fs| - |base| + i], base[i])
    {
      assert SameButState(fs[|fs| - |mid| + (k + i)], mid[k + i]) && SameButState(mid[k + i], base[i]);
    }
  }

  lemma {:induction false} StillAttached(fs: seq<Live>, mid: seq<Live>, depth: nat, c: Context)
    requires StillThere(fs, mid) && Attached(mid, depth, c)
    ensures StillThere(fs, c.base) && |mid| >= |c.base|
  {
    TailIsThere(mid, c.base);
    StillThereTrans(fs, mid, c.base);
  }

  lemma {:induction false} NestForgotten(fs: seq<Live>, was: seq<Live>, inside: seq<Live>)
    requires StillThere(fs, inside) && was != [] && inside != [] && inside[1..] == was[1..] && SameButState(was[0], inside[0])
    ensures StillThere(fs, was)
  {
    assert forall i :: 1 <= i < |was| ==> inside[i] == inside[1..][i - 1] == was[i];
    assert StillThere(inside, was);
    StillThereTrans(fs, inside, was);
  }

  lemma {:induction false} CountFits(args: seq<Value>)
    requires Passable(args)
    ensures InRange(Int16(|args|))
  {
  }

  lemma {:induction false} NewerPart(block: seq<Value>, name: Value, floor: seq<Value>)
    ensures block + ([name] + floor) == (block + [name]) + floor
  {
  }

  lemma {:induction false} FirstFrame(fs: seq<Live>, c: Context)
    requires fs != [] && fs[1..] == c.base && c.baseDepth == 0
    requires fs[0].iEvalNestCount == 0 && fs[0].own == c.floor && fs[0].frame.iReturnIP == c.retIP
    ensures Attached(fs, 1, c)
  {
  }

  lemma {:induction false} FloorFromTop(cell: seq<byte>, sp: nat, newer: seq<Value>, c: Context)
    requires sp <= |cell| && HoldsAll(cell[sp..], (newer + c.floor) + ItemsOf(c.base))
    ensures FloorHolds(cell, c)
    ensures sp == |cell| - TotalSize(newer) - TotalSize(c.floor) - TotalSize(ItemsOf(c.base))
  {
    hide HoldsAll, ItemsOf, TotalSize;
    var older := c.floor + ItemsOf(c.base);
    assert (newer + c.floor) + ItemsOf(c.base) == newer + older;
    HoldsAllDrop(cell[sp..], newer, older);
    HoldsAllSize(cell[sp..], newer + older);
    TotalSizeConcat(newer, older);
    TotalSizeConcat(c.floor, ItemsOf(c.base));
    assert cell[sp..][TotalSize(newer)..] == cell[sp + TotalSize(newer)..];
  }

  lemma {:induction false} FloorUnchanged(cell: seq<byte>, now: seq<byte>, sp: nat, c: Context)
    requires FloorHolds(cell, c) && SameFrom(cell, now, sp)
    requires sp <= |cell| - TotalSize(c.floor) - TotalSize(ItemsOf(c.base))
    ensures FloorHolds(now, c)
  {
    var at := |cell| - TotalSize(c.floor) - TotalSize(ItemsOf(c.base));
    assert cell[at..] == cell[sp..][at - sp..] == now[sp..][at - sp..] == now[at..];
  }

  ghost predicate AllInRange(args: seq<Value>) {
    forall i :: 0 <= i < |args| ==> InRange(args[i])
  }

  lemma {:induction false} ArgOK(args: seq<Value>, i: nat)
    requires i < |args| && Passable(args) && AllInRange(args)
    ensures InRange(args[i]) && !args[i].Ref?
  {
  }

  lemma {:induction false} NoArgs(none: seq<Value>, below: seq<Value>)
    requires none == []
    ensures ArgBlock(none) + below == below
  {
  }

  lemma {:induction false} ParamSize(v: Value)
    ensures InRange(v) && !v.Str? ==> Size(v) == if v.Real? then 8 else 4
    ensures InRange(Int16(TypeOf(v))) && Size(Int16(TypeOf(v))) == 4
  {
  }

  lemma {:induction false} OneMoreKept(infos: seq<SCallbackInfo>)
    requires infos != []
    ensures |OneMoreParam(infos)| == |infos| && OneMoreParam(infos)[..|infos| - 1] == infos[..|infos| - 1]
    ensures OneMoreParam(infos)[|infos| - 1].iStackPtr == infos[|infos| - 1].iStackPtr
  {
  }

  /** The last entry counts one parameter more. */
  function OneMoreParam(infos: seq<SCallbackInfo>): seq<SCallbackInfo>
    requires infos != []
  {
    var last := |infos| - 1;
    infos[last := infos[last].(iParamCount := infos[last].iParamCount + 1)]
  }

  /** The last entry counts this many parameters. */
  ghost function WithParams(infos: seq<SCallbackInfo>, n: nat): seq<SCallbackInfo>
    requires infos != []
  {
    var last := |infos| - 1;
    infos[last := infos[last].(iParamCount := n)]
  }

  lemma {:induction false} ArgsOnTop(own: seq<Value>, k: nat, n: nat)
    requires k <= |own| && n < 0x8000 && SplitArgs(own[..k], n).Some?
    ensures
      var (args, rest) := SplitArgs(own[..k], n).value;
      own == ArgBlock(args) + (rest + own[k..]) && Passable(args) && |args| == n
  {
    hide ArgBlock, SplitArgs;
    SplitArgsGives(own[..k], n);
    assert own == own[..k] + own[k..];
  }

  lemma {:induction false} FloorKept(own: seq<Value>, k: nat, newer: seq<Value>, floor: seq<Value>)
    requires k <= |own|
    ensures HasTail(own, floor) && k == |own| - |floor| ==> HasTail(newer + own[k..], floor)
  {
  }

  lemma {:induction false} FrameAttached(now: seq<Live>, fs: seq<Live>, depth: nat, rest: seq<Value>, c: Context)
    requires Attached(fs, depth, c) && now != [] && now[1..] == fs && now[0].iEvalNestCount == 0 && now[0].own == rest
    requires |fs| == |c.base| ==> c.baseDepth > 0 && HasTail(rest, c.floor)
    ensures Attached(now, depth + 1, c) && |now| > |c.base|
  {
    assert now == [now[0]] + fs;
    TailAdd(now[0], fs, c.base);
  }

  /** The frames and operands after a value is returned. */
  lemma {:induction false} ValueReturned(fs: seq<Live>, depth: nat, v: Value, c: Context)
    requires Attached(fs, depth, c) && |fs| > |c.base| && depth > 0
    ensures Attached(fs[1..], depth - 1, c)
    ensures depth == 1 ==> fs[1..] == c.base && c.baseDepth == 0 && fs[0].own == c.floor && fs[0].frame.iReturnIP == c.retIP
    ensures depth > 1 && |fs[1..]| == |c.base| ==> c.baseDepth > 0 && HasTail([v] + fs[0].own, c.floor)
  {
    TailDrop(fs, c.base);
    if |fs| == |c.base| + 1 {
      TailFull(fs[1..], c.base);
      HasTailPush(v, fs[0].own, c.floor);
    }
  }

  lemma {:induction false} NameOnTop(own: seq<Value>, args: seq<Value>, name: seq<int>, rest: seq<Value>)
    requires own == [Int16(|args|)] + (ArgBlock(args) + ([Str(name)] + rest))
    ensures own == CallBlock(args) + (NamePart(Some(name)) + rest)
  {
    hide ArgBlock;
    ConcatAssoc([Int16(|args|)], ArgBlock(args), [Str(name)] + rest);
  }

  /** n arguments with their types, the last one on top, and the rest. */
  function SplitArgs(own: seq<Value>, n: nat): Option<(seq<Value>, seq<Value>)>
    decreases n
  {
    if n == 0 then Some(([], own))
    else if |own| < 2 || own[1].Ref? || own[0] != Int16(TypeOf(own[1])) then None
    else
      var more := SplitArgs(own[2..], n - 1);
      if more == None then None else Some(([own[1]] + more.value.0, more.value.1))
  }

  lemma {:induction false} SplitArgsGives(own: seq<Value>, n: nat)
    requires SplitArgs(own, n).Some?
    ensures
      var (args, rest) := SplitArgs(own, n).value;
      own == ArgBlock(args) + rest && |args| == n && forall i :: 0 <= i < |args| ==> !args[i].Ref?
    decreases n
  {
    if n > 0 {
      SplitArgsGives(own[2..], n - 1);
      var (args, rest) := SplitArgs(own, n).value;
      assert args[1..] == SplitArgs(own[2..], n - 1).value.0;
      assert own == [own[0], own[1]] + own[2..];
    }
  }

  lemma {:induction false} PoppedFrames(fs: seq<Live>, depth: nat, c: Context, k: nat)
    requires Attached(fs, depth, c) && Passed(fs, k) && k <= depth
    ensures k <= |fs| - |c.base| && Attached(fs[k..], depth - k, c)
  {
    var n := |fs| - |c.base|;
    assert k <= n;
    assert fs[k..][n - k..] == fs[n..];
  }

  lemma {:induction false} TopChanged(fs: seq<Live>, l: Live, depth: nat, c: Context)
    requires Attached(fs, depth, c) && |fs| > |c.base|
    requires SameButState(fs[0], l) && l.iEvalNestCount == 0
    ensures Attached([l] + fs[1..], depth, c)
  {
    hide Tail, HasTail;
    var now := [l] + fs[1..];
    assert now[1..] == fs[1..];
    TailDrop(fs, c.base);
    TailAdd(l, fs[1..], c.base);
    hide Attached, SameButState;
    TopReplaced(fs, now, depth, c);
  }

  lemma {:induction false} TopReplaced(fs: seq<Live>, now: seq<Live>, depth: nat, c: Context)
    requires Attached(fs, depth, c) && |now| == |fs| > |c.base| && Tail(now, c.base)
    requires SameButState(fs[0], now[0]) && now[0].iEvalNestCount == 0
    requires forall i :: 0 < i < |fs| ==> now[i] == fs[i]
    ensures Attached(now, depth, c)
  {
    hide Tail, HasTail;
  }

  /** A frame that is not evaluating belongs to this Execute. */
  lemma {:induction false} TopAttached(fs: seq<Live>, depth: nat, c: Context)
    requires Attached(fs, depth, c) && depth > 0 && fs != []
    ensures fs[0].iEvalNestCount == 0 <==> |fs| > |c.base|
    ensures c.baseDepth == 0 ==> |fs| > |c.base|
  {
  }

  lemma {:induction false} AllGone(fs: seq<Live>, depth: nat, c: Context, k: nat)
    requires Attached(fs, depth, c) && k <= |fs| - |c.base|
    requires depth > k ==> fs[k].iEvalNestCount != 0
    ensures fs[k..] == c.base && depth - k == c.baseDepth
    ensures k > 0 && c.baseDepth == 0 ==> fs[k - 1].frame.iReturnIP == c.retIP
  {
  }

  lemma {:induction false} HasHandler(was: seq<Live>, now: seq<Live>, k: nat, c: Context)
    requires k <= |was| && now == was[k..] && |now| > |c.base|
    ensures now[0].iOnErrIP != None ==> !Passed(was, |was| - |c.base|)
  {
    assert now[0] == was[k];
  }

  /** %, & or $ at the end. */
  predicate EndsInType(name: Name) {
    name != [] && name[|name| - 1] in {0x25, 0x26, 0x24}
  }

  /** The name the procedure is declared by. */
  function Typed(name: Name, aType: TText): Name {
    if aType != 0 then name + [aType] else name
  }

  /** Changes below sp do not matter to the frames. */
  lemma {:induction false} SameTop(was: seq<byte>, now: seq<byte>, sp: nat, own: seq<Value>, fs: seq<Live>)
    requires sp <= |was| == |now| && was[sp..] == now[sp..] && HoldsAll(was[sp..], own + ItemsOf(fs))
    ensures StackHolds(now, fs)
  {
    StackHoldsBelow(now, sp, own, fs);
  }

  ghost predicate Resolved(externals: seq<(Name, int)>, fs: seq<Live>) {
    forall i :: 0 <= i < |externals| ==> Lookup(GlobalsOf(fs), externals[i].0, externals[i].1).Some?
  }

  /** Each entry is the innermost live global of that name and type. */
  ghost predicate Binds(table: seq<int>, externals: seq<(Name, int)>, fs: seq<Live>) {
    && |table| == |externals|
    && forall i :: 0 <= i < |table| ==> Lookup(GlobalsOf(fs), externals[i].0, externals[i].1) == Some(table[i])
  }

  lemma {:induction false} SameGlobals(fs: seq<Live>, l: Live, externals: seq<(Name, int)>, table: seq<int>)
    requires fs != [] && SameButState(fs[0], l)
    ensures Resolved(externals, [l] + fs[1..]) <==> Resolved(externals, fs)
    ensures Binds(table, externals, [l] + fs[1..]) <==> Binds(table, externals, fs)
  {
    StateChanged(fs, l, 0, 0);
  }

  lemma {:induction false} OneMoreExternal(externals: seq<(Name, int)>, k: nat, table: seq<int>, fs: seq<Live>)
    requires k < |externals|
    ensures
      var found := Lookup(GlobalsOf(fs), externals[k].0, externals[k].1);
      && (Resolved(externals[..k + 1], fs) <==> Resolved(externals[..k], fs) && found.Some?)
      && (|table| == k + 1 && Binds(table[..k], externals[..k], fs) && found == Some(table[k])
          ==> Binds(table, externals[..k + 1], fs))
  {
    var sofar, longer := externals[..k], externals[..k + 1];
    assert forall i :: 0 <= i < k ==> sofar[i] == longer[i];
    if Resolved(longer, fs) {
      assert forall i :: 0 <= i < k ==> Lookup(GlobalsOf(fs), longer[i].0, longer[i].1).Some?;
      assert longer[k] == externals[k];
    }
  }

  /** An external that is neither a global of the procedure itself nor one of a
      live frame. */
  ghost predicate Unresolved(p: ProcDef, fs: seq<Live>) {
    exists i :: 0 <= i < |p.iExternals| && !Declares(p.iGlobals, p.iExternals[i].0, p.iExternals[i].1)
      && Lookup(GlobalsOf(fs), p.iExternals[i].0, p.iExternals[i].1).None?
  }

  lemma {:induction false} ResolvedExactly(l: Live, fs: seq<Live>)
    requires Added(l.added, l.frame.iProcDef.iGlobals, l.cell)
    ensures Resolved(l.frame.iProcDef.iExternals, [l] + fs) <==> !Unresolved(l.frame.iProcDef, fs)
  {
    var p := l.frame.iProcDef;
    assert ([l] + fs)[1..] == fs;
    forall i | 0 <= i < |p.iExternals|
      ensures Lookup(GlobalsOf([l] + fs), p.iExternals[i].0, p.iExternals[i].1).Some?
         <==> Declares(p.iGlobals, p.iExternals[i].0, p.iExternals[i].1)
              || Lookup(GlobalsOf(fs), p.iExternals[i].0, p.iExternals[i].1).Some?
    {
      InnermostFirst(l.added, GlobalsOf(fs), p.iExternals[i].0, p.iExternals[i].1);
      AddedFinds(l.added, p.iGlobals, l.cell, p.iExternals[i].0, p.iExternals[i].1);
    }
  }

  /** What InitCallbackL calls without room for the name have left behind: one entry
      each, none of which says that the stack was higher than limit. */
  ghost predicate EntriesLeft(was: seq<SCallbackInfo>, failed: nat, now: seq<SCallbackInfo>, failedNow: nat, limit: int) {
    && failed <= failedNow && |now| == |was| + (failedNow - failed) && now[..|was|] == was
    && forall i :: |was| <= i < |now| ==> now[i].iStackPtr <= limit
  }

  lemma {:induction false} NoneLeft(was: seq<SCallbackInfo>, failed: nat, limit: int)
    ensures EntriesLeft(was, failed, was, failed, limit)
  {
  }

  lemma {:induction false} EntryWithParams(infos: seq<SCallbackInfo>, sp: int, n: nat)
    ensures WithParams(infos + [SCallbackInfo(sp, 0)], n) == infos + [SCallbackInfo(sp, n)]
    ensures (infos + [SCallbackInfo(sp, 0)])[..|infos|] == infos
  {
  }

  lemma {:induction false} OneLeft(was: seq<SCallbackInfo>, failed: nat, sp: int)
    ensures EntriesLeft(was, failed, was + [SCallbackInfo(sp, 0)], failed + 1, sp)
  {
  }

  lemma {:induction false} EntriesCounted(was: seq<SCallbackInfo>, f0: nat, now: seq<SCallbackInfo>, f1: nat, limit: int)
    requires EntriesLeft(was, f0, now, f1, limit)
    ensures f0 <= f1 && |now| == |was| + (f1 - f0) && now[..|was|] == was && (f0 == f1 ==> now == was)
  {
  }

  lemma {:induction false} EntriesLeftMore(was: seq<SCallbackInfo>, f0: nat, mid: seq<SCallbackInfo>, f1: nat,
                                           now: seq<SCallbackInfo>, f2: nat, low: int, limit: int)
    requires EntriesLeft(was, f0, mid, f1, limit) && EntriesLeft(mid, f1, now, f2, low) && low <= limit
    ensures EntriesLeft(was, f0, now, f2, limit)
  {
    assert now[..|was|] == now[..|mid|][..|was|];
    forall i | |was| <= i < |now|
      ensures now[i].iStackPtr <= limit
    {
      if i < |mid| {
        assert now[i] == now[..|mid|][i];
      }
    }
  }

  /** The last entry goes when a callback ends: its own, if no other was left behind
      meanwhile, and else one of those. */
  lemma {:induction false} LastEntryGoes(own: SCallbackInfo, was: seq<SCallbackInfo>, f0: nat,
                                         mid: seq<SCallbackInfo>, f1: nat, low: int)
    requires EntriesLeft(was + [own], f0, mid, f1, low) && low < own.iStackPtr
    ensures mid != [] && EntriesLeft(was, f0, mid[..|mid| - 1], f1, own.iStackPtr)
    ensures f1 == f0 ==> mid == was + [own]
    ensures f1 > f0 ==> mid[|mid| - 1].iStackPtr <= low
  {
    var rest := mid[..|mid| - 1];
    assert mid[..|was|] == mid[..|was| + 1][..|was|] == was;
    assert rest[..|was|] == was;
    assert f1 > f0 ==> mid[|was|] == mid[..|was| + 1][|was|] == own;
  }

  /** Nothing stands in the way of a frame for the procedure. */
  ghost predicate Accepts(p: ProcDef, args: seq<Value>, faults: Faults, sp: int) {
    && !faults.noFrame && !faults.noProcedure && !faults.noCell && TableFits(p.iParamList, faults.tableFailAt)
    && faults.globalsFailAt >= |p.iGlobals| && sp - KReserve >= p.iMaxStack && Matches(p.iParamList, args)
  }

  /** A frame as it is right after the call. */
  ghost predicate Enters(l: Live, m: CModule, p: ProcDef, args: seq<Value>, name: Option<seq<int>>, rest: seq<Value>)
  {
    && l.frame.iModule == m && l.frame.iProcDef == p && l.args == args && l.name == name && l.own == rest
    && l.iEvalNestCount == 0 && l.iOnErrIP == None
  }

  lemma {:induction false} BlockOf(args: seq<Value>, name: Option<seq<int>>, rest: seq<Value>, older: seq<Value>)
    ensures (CallBlock(args) + (NamePart(name) + rest)) + older == CallBlock(args) + (NamePart(name) + (rest + older))
  {
  }
}
