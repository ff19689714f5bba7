/** A run of Execute as what can be observed of it: each opcode with the states
    before and after it, what the error handler made of an error, and the whole run
    of an expression or of a callback inside it. */
module Traces {
  import opened Wrappers
  import opened Stack
  import opened GlobalsTable
  import opened Modules
  import opened Frames
  import opened Nesting

  /** What can be observed between opcodes. */
  datatype State = State(all: seq<Live>, own: seq<Value>, depth: nat, ip: int, sp: int, trap: bool, errorValue: int,
                         inCallback: bool, listed: seq<CModule>, stranded: nat, roomKept: bool)

  /** One opcode: what it did, and where the next one starts. The opcodes of what it
      executes inside are those between it and the rest. */
  datatype Turn = Turn(op: Op, before: State, r: StepResult, after: State, inner: Option<Run>, rest: seq<Op>, next: State)

  /** What was started on c, from its first opcode to its end. */
  datatype Run = Run(c: Context, start: State, turns: seq<Turn>, out: Outcome, end: State)

  // ------------------------------------------------------------ what is offered

  /** How many operands belong to the running code. */
  function Operands(fs: seq<Live>, own: seq<Value>, c: Context): nat {
    if |fs| > |c.base| then |own| else if |own| > |c.floor| then |own| - |c.floor| else 0
  }

  /** The operands on top are n arguments with their types. */
  predicate CanCall(fs: seq<Live>, own: seq<Value>, sp: int, n: nat, c: Context) {
    SplitArgs(own[..Operands(fs, own, c)], n).Some? && sp >= KSlack && n < 0x8000
  }

  /** Those arguments, the last one first. */
  function CallArgs(fs: seq<Live>, own: seq<Value>, n: nat, c: Context): seq<Value> {
    var split := SplitArgs(own[..Operands(fs, own, c)], n);
    if split.Some? then split.value.0 else []
  }

  /** What lies below them. */
  function BelowArgs(fs: seq<Live>, own: seq<Value>, n: nat, c: Context): seq<Value> {
    var k := Operands(fs, own, c);
    var split := SplitArgs(own[..k], n);
    if split.Some? then split.value.1 + own[k..] else []
  }

  /** The name lies below the arguments, and is not one from before this Execute. */
  predicate NameOffered(fs: seq<Live>, below: seq<Value>, folded: Name, c: Context) {
    below != [] && below[0].Str? && |below[0].s| == |folded| && (|fs| == |c.base| ==> |below| > |c.floor|)
  }

  predicate EvalOffered(fs: seq<Live>, own: seq<Value>, c: Context) {
    Operands(fs, own, c) > 0 && own[0].Str?
  }

  lemma {:induction false} SplitsBack(args: seq<Value>, rest: seq<Value>)
    requires forall i :: 0 <= i < |args| ==> !args[i].Ref?
    ensures SplitArgs(ArgBlock(args) + rest, |args|) == Some((args, rest))
  {
    if args == [] {
      assert ArgBlock(args) + rest == rest;
    } else {
      var tail := args[1..];
      SplitsBack(tail, rest);
      var own := ArgBlock(args) + rest;
      assert own == [Int16(TypeOf(args[0])), args[0]] + (ArgBlock(tail) + rest) by {
        ConcatAssoc([Int16(TypeOf(args[0])), args[0]], ArgBlock(tail), rest);
      }
      hide ArgBlock, TypeOf;
      assert own[2..] == ArgBlock(tail) + rest;
      assert args == [args[0]] + tail;
    }
  }

  /** Arguments on top, pushed since this Execute began, are offered to a call: in a
      procedure with whatever lies below them, in an expression above the operands
      from before it. */
  lemma {:induction false} ArgumentsAreOffered(fs: seq<Live>, own: seq<Value>, sp: int, args: seq<Value>, taken: seq<Value>,
                                               c: Context)
    requires Passable(args) && sp >= KSlack
    requires if |fs| > |c.base| then own == ArgBlock(args) + taken else own == (ArgBlock(args) + taken) + c.floor
    ensures CanCall(fs, own, sp, |args|, c) && CallArgs(fs, own, |args|, c) == args
    ensures BelowArgs(fs, own, |args|, c) == taken + if |fs| > |c.base| then [] else c.floor
  {
    SplitsBack(args, taken);
    var k := Operands(fs, own, c);
    assert own[..k] == ArgBlock(args) + taken;
    assert own[k..] == if |fs| > |c.base| then [] else c.floor;
    hide ArgBlock, SplitArgs;
  }

  // --------------------------------------------------------- what an opcode does

  /** Only operands have changed, and the pointer with them. */
  ghost predicate OperandsOnly(was: State, now: State) {
    now == was.(own := now.own, sp := now.sp)
  }

  /** The top operand is gone. */
  ghost predicate Popped(was: State, now: State, c: Context) {
    now.own == if Operands(was.all, was.own, c) > 0 then was.own[1..] else was.own
  }

  /** A new frame on top runs the procedure on these arguments; what lay below them
      is kept with it. */
  ghost predicate Entered(was: State, now: State, m: CModule, p: ProcDef, args: seq<Value>, name: Option<seq<int>>,
                          below: seq<Value>) {
    && |now.all| == |was.all| + 1 && now.all[1..] == was.all && now.own == []
    && Enters(now.all[0], m, p, args, name, below) && now.all[0].frame.iReturnIP == was.ip
  }

  /** A call: the first procedure of that name in the order of the modules runs, if
      nothing stands in the way of its frame and all its externals are there. */
  ghost predicate CallDone(target: Option<(CModule, ProcDef)>, args: seq<Value>, name: Option<seq<int>>, below: seq<Value>,
                           qCode: int, faults: Faults, r: StepResult, was: State, now: State) {
    && now.listed == was.listed && !now.trap
    && if target.None? || !Accepts(target.value.1, args, faults, was.sp - 4) then
         r.Leave? && (target.None? ==> r.err == KOplErrNoProc) && now.all == was.all && now.ip == was.ip
       else
         var (m, p) := target.value;
         && Entered(was, now, m, p, args, name, below)
         && if Unresolved(p, was.all) || TableFails(p, faults.tableFailAt) then r.Leave? else r == Continue && now.ip == qCode
  }

  /** What each opcode does when it is offered: commands only inside a procedure,
      calls with arguments on the stack, returns with nothing but a value. One that
      is not offered does nothing. */
  ghost predicate Effect(op: Op, r: StepResult, c: Context, was: State, now: State) {
    && was.all != []
    && var top := was.all[0]; var inProcedure := |was.all| > |c.base|; var nothing := r == Continue && now == was;
       match op
       case PushOp(v) =>
         && OperandsOnly(was, now)
         && r == (if v.Str? && was.sp - Size(v) < KReserve + top.frame.iProcDef.iMaxStack then Leave(KErrNoMemory) else Continue)
         && (r == Continue ==> now.own == if v.Str? || was.sp >= KSlack then [v] + was.own else was.own)
       case DropOp => r == Continue && OperandsOnly(was, now) && Popped(was, now, c)
       case FailOp(err, _) => r == Leave(err) && OperandsOnly(was, now)
       case JumpOp(ip) => r == Continue && now == was.(ip := ip)
       case TrapOp(err) =>
         if !inProcedure then nothing
         else r == (if err == KErrNone then Continue else Leave(err)) && OperandsOnly(was.(trap := err != KErrNone), now)
       case OnErrOp(handler) =>
         if !inProcedure then nothing
         else r == Continue && now == was.(all := [top.(iOnErrIP := handler)] + was.all[1..])
       case LoadOp(f, file) =>
         if !inProcedure then nothing
         else
           && (if Named(was.listed, f) || |was.listed| >= KMaxModules || file.None? then r.Leave? && now.listed == was.listed
               else
                 && r == Continue && |now.listed| == |was.listed| + 1 && now.listed[..|was.listed|] == was.listed
                 && now.listed[|was.listed|].iOpoName == f && now.listed[|was.listed|].iProcs == file.value)
           && OperandsOnly(was.(listed := now.listed), now) && Popped(was, now, c)
       case UnloadOp(f) =>
         if !inProcedure then nothing
         else
           && (if !Named(was.listed, f) then r.Leave? && now.listed == was.listed
               else r == Continue && OneGone(was.listed, f, now.listed))
           && OperandsOnly(was.(listed := now.listed), now) && Popped(was, now, c)
       case CallOp(procName, n, qCode, faults) =>
         if !CanCall(was.all, was.own, was.sp, n, c) then nothing
         else
           CallDone(FirstWith(was.listed, procName), CallArgs(was.all, was.own, n, c), None, BelowArgs(was.all, was.own, n, c),
                    qCode, faults, r, was, now)
       case CallByNameOp(folded, aType, n, qCode, faults) =>
         var below := BelowArgs(was.all, was.own, n, c);
         if !CanCall(was.all, was.own, was.sp, n, c) || !NameOffered(was.all, below, folded, c) then nothing
         else
           CallDone(ByName(was.listed, folded, aType), CallArgs(was.all, was.own, n, c), Some(below[0].s), below[1..],
                    qCode, faults, r, was, now)
       case ReturnOp =>
         if !inProcedure || |was.own| != 1 then nothing
         else
           && now.all == was.all[1..] && now.own == was.own + top.own && now.ip == top.frame.iReturnIP
           && now.listed == was.listed && !now.trap && r == (if now.depth == 0 then Exit else Continue)
           && now.roomKept == (was.roomKept && FitsCaller(was.own[0], now.all, top.own))
       case ZeroReturnOp(zero) =>
         if !inProcedure || was.own != [] || (zero.Str? && was.depth <= 1) then nothing
         else
           && now.all == was.all[1..] && now.ip == top.frame.iReturnIP && now.listed == was.listed && !now.trap
           && (r.Leave? <==> zero.Str? && NoRoomForEmpty(now.all, top.own))
           && (!r.Leave? ==> now.own == [zero] + top.own && r == if now.depth == 0 then Exit else Continue)
       case StopOp =>
         && now == was
         && r == if !inProcedure then Continue else if was.inCallback then Leave(KOplErrStopInCallback) else Stop(Stopped)
       case EvalEndOp =>
         now == was && r == if !inProcedure && |was.own| == |c.floor| + 1 && was.own[0].Real? then Exit else Continue
       case EvalOp(_, _, _) =>
         && (r == Continue || r.Leave? ==> now.all == was.all && now.ip == was.ip)
         && (r == Continue && EvalOffered(was.all, was.own, c) ==>
               |now.own| == |was.own| && now.own[1..] == was.own[1..] && now.own[0].Real?)
       case CallbackOp(_, _, _, _, _, _, _, propagates) =>
         && (r == Continue || r.Leave? ==> now.all == was.all && now.ip == was.ip)
         && (r == Continue ==> (|now.own| == |was.own| + 1 && now.own[1..] == was.own) || (now.own == was.own && !propagates))
  }

  /** The procedure called by that text. */
  function ByName(listed: seq<CModule>, folded: Name, aType: TText): Option<(CModule, ProcDef)> {
    if folded == [] || EndsInType(folded) then None else FirstWith(listed, Typed(folded, aType))
  }

  /** The empty string does not fit among these operands of the innermost frame. */
  ghost predicate NoRoomForEmpty(fs: seq<Live>, own: seq<Value>) {
    fs != [] && fs[0].frame.iSP - TotalSize(own) - Size(Str([])) < KReserve + fs[0].frame.iProcDef.iMaxStack
  }

  lemma {:induction false} CallEffect(procName: Name, n: nat, qCode: int, faults: Faults, r: StepResult, c: Context,
                                      was: State, now: State)
    requires was.all != []
    requires if !CanCall(was.all, was.own, was.sp, n, c) then r == Continue && now == was
             else CallDone(FirstWith(was.listed, procName), CallArgs(was.all, was.own, n, c), None,
                           BelowArgs(was.all, was.own, n, c), qCode, faults, r, was, now)
    ensures Effect(CallOp(procName, n, qCode, faults), r, c, was, now)
  {
    hide CanCall, CallArgs, BelowArgs, CallDone, FirstWith;
  }

  lemma {:induction false} NameEffect(folded: Name, aType: TText, n: nat, qCode: int, faults: Faults, r: StepResult, c: Context,
                                      was: State, now: State)
    requires was.all != []
    requires var below := BelowArgs(was.all, was.own, n, c);
             if !CanCall(was.all, was.own, was.sp, n, c) || !NameOffered(was.all, below, folded, c)
             then r == Continue && now == was
             else CallDone(ByName(was.listed, folded, aType), CallArgs(was.all, was.own, n, c), Some(below[0].s), below[1..],
                           qCode, faults, r, was, now)
    ensures Effect(CallByNameOp(folded, aType, n, qCode, faults), r, c, was, now)
  {
    hide CanCall, CallArgs, BelowArgs, CallDone, ByName;
  }

  lemma {:induction false} ReturnEffect(r: StepResult, c: Context, was: State, now: State)
    requires was.all != [] && !was.trap
    requires if |was.all| <= |c.base| || |was.own| != 1 then r == Continue && now == was
             else
               && now.all == was.all[1..] && now.own == was.own + was.all[0].own && now.ip == was.all[0].frame.iReturnIP
               && now.listed == was.listed && now.trap == was.trap && r == (if now.depth == 0 then Exit else Continue)
               && now.roomKept == (was.roomKept && FitsCaller(was.own[0], now.all, was.all[0].own))
    ensures Effect(ReturnOp, r, c, was, now)
  {
    hide FitsCaller;
  }

  lemma {:induction false} ZeroEffect(zero: Value, r: StepResult, c: Context, was: State, now: State)
    requires was.all != [] && !was.trap
    requires if |was.all| <= |c.base| || was.own != [] || (zero.Str? && was.depth <= 1) then r == Continue && now == was
             else
               && now.all == was.all[1..] && now.ip == was.all[0].frame.iReturnIP
               && now.listed == was.listed && now.trap == was.trap
               && (r.Leave? <==> zero.Str? && NoRoomForEmpty(now.all, was.all[0].own))
               && (!r.Leave? ==> now.own == [zero] + was.all[0].own && r == if now.depth == 0 then Exit else Continue)
    ensures Effect(ZeroReturnOp(zero), r, c, was, now)
  {
    hide NoRoomForEmpty;
  }

  lemma {:induction false} EvalEndEffect(r: StepResult, c: Context, s: State)
    requires s.all != [] && (r == Exit || r == Continue)
    requires r == Exit <==> |s.all| <= |c.base| && |s.own| == |c.floor| + 1 && s.own[0].Real?
    ensures Effect(EvalEndOp, r, c, s, s)
  {
  }

  // ------------------------------------------------------------------- errors

  /** No frame of this Execute has a handler, and TRAP is not set. */
  ghost predicate Unhandled(s: State, c: Context) {
    !s.trap && |c.base| <= |s.all| && Passed(s.all, |s.all| - |c.base|)
  }

  /** Under TRAP the running procedure goes on. Otherwise the frames up to the
      nearest handler have gone, and the code of the handler goes on there. */
  ghost predicate HandledAt(s: State, err: int, c: Context, next: State) {
    && next.own == [] && next.all != [] && next.sp == next.all[0].frame.iSP && !next.trap && next.errorValue == err
    && next.inCallback == s.inCallback && next.listed == s.listed && |next.all| > |c.base| && |next.all| <= |s.all|
    && var k := |s.all| - |next.all|;
       && next.all == s.all[k..] && next.depth + k == s.depth
       && if s.trap then k == 0 && next.ip == s.ip
          else Passed(s.all, k) && next.all[0].iEvalNestCount == 0 && next.all[0].iOnErrIP == Some(next.ip)
  }

  /** All frames of this Execute have gone. */
  ghost predicate GaveUp(s: State, err: int, c: Context, end: State) {
    && end.all == c.base && end.depth == c.baseDepth && (c.baseDepth == 0 ==> end.ip == c.retIP)
    && !end.trap && end.errorValue == err && end.inCallback == s.inCallback && end.listed == s.listed
  }

  // --------------------------------------------------------------------- runs

  /** The code of an expression runs in the same procedure, which it marks as
      evaluating. */
  ghost predicate ExpressionRuns(s: State, qCode: int, run: Run, ops: seq<Op>, left: seq<Op>)
    decreases |ops|, 4
  {
    && s.all != [] && run.start == s.(all := Marked(s.all), ip := qCode)
    && run.c == Context(Marked(s.all), s.depth, s.own, 0) && IsRun(run, ops, left)
  }

  ghost function Marked(fs: seq<Live>): seq<Live>
    requires fs != []
  {
    [fs[0].(iEvalNestCount := fs[0].iEvalNestCount + 1)] + fs[1..]
  }

  function AfterExpression(out: Outcome): StepResult {
    match out
    case Finished => Continue
    case Failed(err) => Leave(err)
    case Stopped => Stop(StopInEval)
    case _ => Stop(out)
  }

  /** EVAL: the translator's error, or too little stack, or the run of the code in
      the same procedure, whose error or value is that of the opcode. */
  ghost predicate Evaluated(t: Turn, c: Context, ops: seq<Op>)
    requires t.op.EvalOp?
    decreases |ops|, 5
  {
    var s, own := t.before, if t.before.own == [] then [] else t.before.own[1..];
    if !EvalOffered(s.all, s.own, c) then t.r == Continue && t.after == s && t.inner == None && t.rest == ops
    else
      var sp := s.sp + Size(s.own[0]);
      if t.op.translateErr != KErrNone then t.r == Leave(t.op.translateErr) && t.inner == None && t.rest == ops
      else if sp - KReserve < t.op.maxStackDepth then t.r == Leave(KOplErrNoMemory) && t.inner == None && t.rest == ops
      else
        && t.inner.Some?
        && var run := t.inner.value;
           && ExpressionRuns(s.(own := own, sp := sp), t.op.qCode, run, ops, t.rest) && t.r == AfterExpression(run.out)
           && (t.r == Continue ==> t.after.own == run.end.own && t.after.listed == run.end.listed)
  }

  /** Where the stack is when the name and the parameters of a callback are there. */
  function Prepared(sp: int, name: seq<int>, args: seq<Value>): int {
    sp - Size(Str(name)) - TotalSize(ArgBlock(args))
  }

  /** A parameter fits, with its type and the number of parameters to come. */
  predicate ParamFits(sp: int, v: Value, maxStack: nat) {
    if v.Str? then sp - Size(v) >= KReserve + maxStack && sp - Size(v) >= KReserve + 8
    else sp - KReserve >= if v.Real? then 16 else 12
  }

  lemma {:induction false} LastParamsFit(sp: int, args: seq<Value>, i: nat, maxStack: nat)
    requires i <= |args|
    ensures ParamsFit(sp, args, maxStack) ==> ParamsFit(sp, args[i..], maxStack)
  {
    if i > 0 && ParamsFit(sp, args, maxStack) {
      LastParamsFit(sp, args[1..], i - 1, maxStack);
      assert args[1..][i - 1..] == args[i..];
    } else {
      assert args[0..] == args;
    }
  }

  lemma {:induction false} OneParamMore(sp: int, args: seq<Value>, i: nat, maxStack: nat)
    requires i < |args|
    ensures ParamsFit(sp, args[i..], maxStack)
       <==> ParamsFit(sp, args[i + 1..], maxStack) && ParamFits(sp - TotalSize(ArgBlock(args[i + 1..])), args[i], maxStack)
    ensures TotalSize(ArgBlock(args[i..])) == TotalSize(ArgBlock(args[i + 1..])) + Size(args[i]) + 4
    ensures ParamsFit(sp, [], maxStack) && TotalSize(ArgBlock([])) == 0
  {
    var rest, v, n := args[i + 1..], args[i], Int16(TypeOf(args[i]));
    assert args[i..][1..] == rest && args[i..][0] == v;
    assert ArgBlock(args[i..]) == [n, v] + ArgBlock(rest);
    assert ([n, v] + ArgBlock(rest))[1..] == [v] + ArgBlock(rest);
    assert ([v] + ArgBlock(rest))[1..] == ArgBlock(rest);
  }

  /** All of them do, the first one pushed first. */
  predicate ParamsFit(sp: int, args: seq<Value>, maxStack: nat) {
    args == [] || (ParamsFit(sp, args[1..], maxStack) && ParamFits(sp - TotalSize(ArgBlock(args[1..])), args[0], maxStack))
  }

  predicate NameFits(sp: int, name: seq<int>, maxStack: nat) {
    sp - Size(Str(name)) >= KReserve + maxStack
  }

  /** The procedure of a callback is found, and nothing stands in the way of its
      frame. */
  ghost predicate GetsFrame(listed: seq<CModule>, sp: int, args: seq<Value>, name: seq<int>, folded: Name, aType: TText,
                            faults: Faults) {
    var target := FirstWith(listed, Typed(folded, aType));
    && name != [] && !EndsInType(folded) && target.Some? && Accepts(target.value.1, args, faults, sp - 4)
  }

  /** And then an external has no global, or there is no memory for the table of
      externals: a frame that nobody will remove. */
  ghost predicate LosesFrame(fs: seq<Live>, listed: seq<CModule>, sp: int, args: seq<Value>, name: seq<int>, folded: Name,
                             aType: TText, faults: Faults) {
    && GetsFrame(listed, sp, args, name, folded, aType, faults)
    && var p := FirstWith(listed, Typed(folded, aType)).value.1;
       Unresolved(p, fs) || TableFails(p, faults.tableFailAt)
  }

  /** The native procedure has the result; an error it passes on, or it goes on with
      its operands, if they are back. */
  ghost predicate BackInNative(t: Turn, out: Outcome, restored: bool)
    requires t.op.CallbackOp?
  {
    match out
    case Finished => t.r == Continue
    case Failed(err) =>
      if restored && !t.op.propagates then t.r == Continue && t.after.own == t.before.own else t.r == Leave(err)
    case _ => t.r == Stop(out)
  }

  /** The run of the callback's procedure begins, without a caller. */
  ghost predicate CallbackBegins(c: Context, listed: seq<CModule>, stranded: nat, args: seq<Value>,
                                 target: Option<(CModule, ProcDef)>, qCode: int,
                                 start: State)
  {
    && start.all != [] && start.all[1..] == c.base && start.own == [] && start.ip == qCode && start.depth == 1
    && start.inCallback && !start.trap && start.listed == listed && start.stranded == stranded
    && start.all[0].args == args && start.all[0].own == c.floor
    && target == Some((start.all[0].frame.iModule, start.all[0].frame.iProcDef))
  }

  /** And what comes of it: STOP leaves its frame behind. */
  ghost predicate CallbackRuns(c: Context, listed: seq<CModule>, stranded: nat, args: seq<Value>,
                               target: Option<(CModule, ProcDef)>, qCode: int, run: Run,
                               ops: seq<Op>, left: seq<Op>, out: Outcome)
    decreases |ops|, 4
  {
    && run.c == c && CallbackBegins(c, listed, stranded, args, target, qCode, run.start) && IsRun(run, ops, left)
    && out == (if run.out == Stopped then FrameLost else run.out)
  }

  /** There is such a run if the procedure gets as far as its first opcode. */
  ghost predicate CallbackTraced(starts: bool, c: Context, listed: seq<CModule>, stranded: nat, args: seq<Value>,
                                 target: Option<(CModule, ProcDef)>, qCode: int, inner: Option<Run>,
                                 ops: seq<Op>, left: seq<Op>, out: Outcome)
    decreases |ops|, 5
  {
    if starts then inner.Some? && CallbackRuns(c, listed, stranded, args, target, qCode, inner.value, ops, left, out)
    else inner == None
  }

  lemma {:induction false} NotTraced(c: Context, listed: seq<CModule>, stranded: nat, args: seq<Value>,
                                     target: Option<(CModule, ProcDef)>, qCode: int, ops: seq<Op>, left: seq<Op>, out: Outcome)
    ensures CallbackTraced(false, c, listed, stranded, args, target, qCode, None, ops, left, out)
  {
  }

  lemma {:induction false} IsTraced(c: Context, listed: seq<CModule>, stranded: nat, args: seq<Value>,
                                    target: Option<(CModule, ProcDef)>, qCode: int, run: Run,
                                    ops: seq<Op>, left: seq<Op>, out: Outcome)
    requires run.c == c && CallbackBegins(c, listed, stranded, args, target, qCode, run.start) && IsRun(run, ops, left)
    requires out == if run.out == Stopped then FrameLost else run.out
    ensures CallbackTraced(true, c, listed, stranded, args, target, qCode, Some(run), ops, left, out)
  {
    hide IsRun, CallbackBegins;
  }

  /** A callback: its preparation or its procedure fails, or the procedure runs. */
  ghost predicate CalledBack(t: Turn, c: Context, ops: seq<Op>)
    requires t.op.CallbackOp?
    decreases |ops|, 6
  {
    exists out, restored ::
      CallbackDone(t.op, t.before, ops, t.inner, t.rest, out, restored, t.after) && BackInNative(t, out, restored)
  }

  ghost predicate CallbackDone(op: Op, s: State, ops: seq<Op>, inner: Option<Run>, left: seq<Op>, out: Outcome, restored: bool,
                               now: State)
    requires op.CallbackOp?
    decreases |ops|, 5
  {
    && s.all != []
    && var maxStack := s.all[0].frame.iProcDef.iMaxStack; var sp := Prepared(s.sp, op.name, op.args);
       var notStarted := inner == None && left == ops;
       if op.noEntry then notStarted && out == Failed(KErrNoMemory) && restored
       else if !NameFits(s.sp, op.name, maxStack) then notStarted && out == Failed(KErrNoMemory) && !restored
       else if !ParamsFit(s.sp - Size(Str(op.name)), op.args, maxStack) then
         notStarted && out == Failed(KErrNoMemory) && restored
       else if !GetsFrame(s.listed, sp, op.args, op.name, op.folded, op.aType, op.faults) then
         notStarted && out.Failed? && out.err < KErrNone && restored
       else if LosesFrame(s.all, s.listed, sp, op.args, op.name, op.folded, op.aType, op.faults) then
         notStarted && out == FrameLost
       else
         && inner.Some?
         && CallbackRuns(Context(s.all, 0, s.own, s.ip), s.listed, s.stranded, op.args,
                         FirstWith(s.listed, Typed(op.folded, op.aType)), op.qCode, inner.value, ops, left, out)
         && (out == Finished ==> now.own == inner.value.end.own && now.listed == inner.value.end.listed)
         && (out.Failed? ==> (restored <==> now.stranded == s.stranded))
  }

  ghost predicate IsTurn(t: Turn, c: Context, ops: seq<Op>)
    decreases |ops|, 7
  {
    && Effect(t.op, t.r, c, t.before, t.after)
    && (t.r == Continue ==> Moves(t.before.all, t.after.all, t.after.own, t.after.ip))
    && (t.r.Leave? ==> Near(t.before.all, t.after.all) && |c.base| <= |t.after.all|)
    && match t.op
       case EvalOp(_, _, _) => Evaluated(t, c, ops)
       case CallbackOp(_, _, _, _, _, _, _, _) => CalledBack(t, c, ops)
       case _ => t.inner == None && t.rest == ops
  }

  /** The opcodes that are left before turn i. */
  ghost function OpsAt(turns: seq<Turn>, ops: seq<Op>, i: nat): seq<Op>
    requires i <= |turns|
  {
    if i == 0 then ops else turns[i - 1].rest
  }

  /** The state before turn i. */
  ghost function StateAt(turns: seq<Turn>, start: State, i: nat): State
    requires i <= |turns|
  {
    if i == 0 then start else turns[i - 1].next
  }

  /** Turn i is the next opcode, from where the turn before it has led. */
  ghost predicate InOrder(turns: seq<Turn>, c: Context, start: State, ops: seq<Op>, i: nat)
    requires i < |turns|
    decreases |ops|, 1
  {
    var t, now := turns[i], OpsAt(turns, ops, i);
    && t.before == StateAt(turns, start, i) && now != [] && |now| <= |ops| && t.op == now[0] && |t.rest| < |now|
    && IsTurn(t, c, now[1..])
  }

  /** The run goes on after the turn, in the error handler if it left. */
  ghost predicate GoesOn(t: Turn, c: Context) {
    || (t.r == Continue && t.next == t.after)
    || (t.r.Leave? && !Unhandled(t.after, c) && HandledAt(t.after, t.r.err, c, t.next))
  }

  /** A run as far as it has got. */
  ghost predicate IsUnderWay(turns: seq<Turn>, c: Context, start: State, ops: seq<Op>)
    decreases |ops|, 2
  {
    forall i :: 0 <= i < |turns| ==> InOrder(turns, c, start, ops, i) && GoesOn(turns[i], c)
  }

  /** How a turn ends the run. */
  ghost predicate EndsWith(t: Turn, c: Context, out: Outcome, end: State) {
    match t.r
    case Continue => false
    case Exit => out == Finished && end == t.after
    case Stop(o) => out == o && o != Finished && !o.Failed? && end == t.after
    case Leave(err) => Unhandled(t.after, c) && out == Failed(err) && GaveUp(t.after, err, c, end)
  }

  /** Every opcode is a turn, in order; errors go to the handler; and the outcome is
      that of the last turn, or there are no more opcodes. */
  ghost predicate IsRun(run: Run, ops: seq<Op>, left: seq<Op>)
    decreases |ops|, 3
  {
    var turns, n := run.turns, |run.turns|;
    if n > 0 && !GoesOn(turns[n - 1], run.c) then
      && IsUnderWay(turns[..n - 1], run.c, run.start, ops) && InOrder(turns, run.c, run.start, ops, n - 1)
      && EndsWith(turns[n - 1], run.c, run.out, run.end) && left == turns[n - 1].rest
    else
      && IsUnderWay(turns, run.c, run.start, ops) && left == OpsAt(turns, ops, n) == []
      && run.out == Exhausted && run.end == StateAt(turns, run.start, n)
  }

  // --------------------------------------------------------- what runs are like

  /** What a run has got to is a run whose opcodes are at an end. */
  lemma {:induction false} NoMoreOpcodes(run: Run, ops: seq<Op>)
    requires IsUnderWay(run.turns, run.c, run.start, ops) && OpsAt(run.turns, ops, |run.turns|) == []
    requires run.out == Exhausted && run.end == StateAt(run.turns, run.start, |run.turns|)
    ensures IsRun(run, ops, [])
  {
  }

  lemma {:induction false} NothingYet(c: Context, start: State, ops: seq<Op>)
    ensures IsUnderWay([], c, start, ops) && OpsAt([], ops, 0) == ops && StateAt([], start, 0) == start
  {
  }

  lemma {:induction false} SameOrder(turns: seq<Turn>, t: Turn, c: Context, start: State, ops: seq<Op>, i: nat)
    requires i < |turns| && InOrder(turns, c, start, ops, i)
    ensures InOrder(turns + [t], c, start, ops, i) && (turns + [t])[i] == turns[i]
  {
    hide IsTurn;
  }

  lemma {:induction false} NewInOrder(turns: seq<Turn>, t: Turn, c: Context, start: State, ops: seq<Op>)
    requires var now := OpsAt(turns, ops, |turns|);
             && t.before == StateAt(turns, start, |turns|) && now != [] && |now| <= |ops| && t.op == now[0] && |t.rest| < |now|
             && IsTurn(t, c, now[1..])
    ensures InOrder(turns + [t], c, start, ops, |turns|) && (turns + [t])[|turns|] == t
    ensures OpsAt(turns + [t], ops, |turns| + 1) == t.rest && StateAt(turns + [t], start, |turns| + 1) == t.next
  {
    hide IsTurn;
  }

  lemma {:induction false} AllInOrder(turns: seq<Turn>, more: seq<Turn>, t: Turn, c: Context, start: State, ops: seq<Op>)
    requires IsUnderWay(turns, c, start, ops) && |more| == |turns| + 1 && more[|turns|] == t && GoesOn(t, c)
    requires InOrder(more, c, start, ops, |turns|)
    requires forall i :: 0 <= i < |turns| ==> InOrder(more, c, start, ops, i) && more[i] == turns[i]
    ensures IsUnderWay(more, c, start, ops)
  {
    hide InOrder, GoesOn;
    forall i | 0 <= i < |more|
      ensures InOrder(more, c, start, ops, i) && GoesOn(more[i], c)
    {
      assert i < |turns| ==> InOrder(turns, c, start, ops, i) && GoesOn(turns[i], c);
    }
  }

  /** One turn more. */
  lemma {:induction false} OneTurnMore(turns: seq<Turn>, c: Context, start: State, ops: seq<Op>, t: Turn)
    requires IsUnderWay(turns, c, start, ops)
    requires var now := OpsAt(turns, ops, |turns|);
             && t.before == StateAt(turns, start, |turns|) && now != [] && |now| <= |ops| && t.op == now[0] && |t.rest| < |now|
             && IsTurn(t, c, now[1..])
    ensures InOrder(turns + [t], c, start, ops, |turns|) && (turns + [t])[..|turns|] == turns
    ensures GoesOn(t, c) ==> IsUnderWay(turns + [t], c, start, ops)
    ensures OpsAt(turns + [t], ops, |turns| + 1) == t.rest && StateAt(turns + [t], start, |turns| + 1) == t.next
  {
    NewInOrder(turns, t, c, start, ops);
    forall i | 0 <= i < |turns|
      ensures InOrder(turns + [t], c, start, ops, i) && (turns + [t])[i] == turns[i]
    {
      assert InOrder(turns, c, start, ops, i);
      hide *;
      SameOrder(turns, t, c, start, ops, i);
    }
    hide *;
    if GoesOn(t, c) {
      AllInOrder(turns, turns + [t], t, c, start, ops);
    }
  }

  /** The last one. */
  lemma {:induction false} LastTurn(turns: seq<Turn>, c: Context, start: State, ops: seq<Op>, t: Turn, out: Outcome, end: State)
    requires IsUnderWay(turns, c, start, ops)
    requires var now := OpsAt(turns, ops, |turns|);
             && t.before == StateAt(turns, start, |turns|) && now != [] && |now| <= |ops| && t.op == now[0] && |t.rest| < |now|
             && IsTurn(t, c, now[1..])
    requires EndsWith(t, c, out, end)
    ensures IsRun(Run(c, start, turns + [t], out, end), ops, t.rest)
  {
    OneTurnMore(turns, c, start, ops, t);
    EndIsEnd(t, c, out, end);
    hide IsTurn, GoesOn, InOrder, IsUnderWay, EndsWith, OpsAt, StateAt;
  }

  lemma {:induction false} EndIsEnd(t: Turn, c: Context, out: Outcome, end: State)
    requires EndsWith(t, c, out, end)
    ensures !GoesOn(t, c)
  {
  }

  lemma {:induction false} ErrorTurns(t: Turn, err: int, c: Context, after: State, unhandled: bool, now: State)
    requires t.r == Leave(err) && t.after == after && unhandled == Unhandled(after, c)
    requires if unhandled then GaveUp(after, err, c, now) else HandledAt(after, err, c, now)
    ensures if unhandled then EndsWith(t.(next := now), c, Failed(err), now) else GoesOn(t.(next := now), c)
  {
    hide Unhandled, GaveUp, HandledAt;
  }

  /** Only a callback or an expression can end a run without its opcodes being at an
      end, and then theirs are. */
  lemma {:induction false} StopsInside(t: Turn, c: Context, ops: seq<Op>)
    requires IsTurn(t, c, ops) && t.r == Stop(Exhausted)
    ensures t.inner.Some? && t.inner.value.out == Exhausted && IsRun(t.inner.value, ops, t.rest)
  {
    hide IsRun, CallbackBegins, GetsFrame, LosesFrame, ParamsFit;
    if t.op.CallbackOp? {
      var s, op := t.before, t.op;
      var out, restored :| CallbackDone(op, s, ops, t.inner, t.rest, out, restored, t.after) && BackInNative(t, out, restored);
      var target := FirstWith(s.listed, Typed(op.folded, op.aType));
      hide FirstWith, Typed;
      assert CallbackRuns(Context(s.all, 0, s.own, s.ip), s.listed, s.stranded, op.args, target, op.qCode, t.inner.value, ops,
                          t.rest, out);
    } else if t.op.EvalOp? {
      assert ExpressionRuns(t.before.(own := t.before.own[1..], sp := t.before.sp + Size(t.before.own[0])), t.op.qCode,
                            t.inner.value, ops, t.rest);
    }
  }

  /** The preparation of a callback fails. */
  lemma {:induction false} CallbackNotPrepared(op: Op, s: State, ops: seq<Op>, restored: bool, now: State)
    requires op.CallbackOp? && s.all != []
    requires var maxStack := s.all[0].frame.iProcDef.iMaxStack;
             && (op.noEntry || !NameFits(s.sp, op.name, maxStack) || !ParamsFit(s.sp - Size(Str(op.name)), op.args, maxStack))
             && (restored <==> op.noEntry || NameFits(s.sp, op.name, maxStack))
    ensures CallbackDone(op, s, ops, None, ops, Failed(KErrNoMemory), restored, now)
  {
  }

  /** What CallProcedure does when the name and the parameters are on the stack. */
  ghost predicate PreparedDone(op: Op, s: State, ops: seq<Op>, inner: Option<Run>, left: seq<Op>, out: Outcome, now: State)
    requires op.CallbackOp?
  {
    var sp := Prepared(s.sp, op.name, op.args);
    var gets := GetsFrame(s.listed, sp, op.args, op.name, op.folded, op.aType, op.faults);
    var loses := LosesFrame(s.all, s.listed, sp, op.args, op.name, op.folded, op.aType, op.faults);
    && (!gets ==> out.Failed? && out.err < KErrNone && left == ops && now.stranded == s.stranded)
    && (loses ==> out == FrameLost && left == ops)
    && CallbackTraced(gets && !loses, Context(s.all, 0, s.own, s.ip), s.listed, s.stranded, op.args,
                      FirstWith(s.listed, Typed(op.folded, op.aType)), op.qCode, inner, ops, left, out)
    && (out == Finished ==> inner.Some? && now.own == inner.value.end.own && now.listed == inner.value.end.listed)
  }

  lemma {:induction false} PreparedIsDone(op: Op, s: State, ops: seq<Op>, inner: Option<Run>, left: seq<Op>, out: Outcome,
                                          now: State)
    requires op.CallbackOp?
    requires var sp := Prepared(s.sp, op.name, op.args);
             var gets := GetsFrame(s.listed, sp, op.args, op.name, op.folded, op.aType, op.faults);
             var loses := LosesFrame(s.all, s.listed, sp, op.args, op.name, op.folded, op.aType, op.faults);
             && (!gets ==> out.Failed? && out.err < KErrNone && left == ops && now.stranded == s.stranded)
             && (loses ==> out == FrameLost && left == ops)
             && CallbackTraced(gets && !loses, Context(s.all, 0, s.own, s.ip), s.listed, s.stranded, op.args,
                               FirstWith(s.listed, Typed(op.folded, op.aType)), op.qCode, inner, ops, left, out)
             && (out == Finished ==> inner.Some? && now.own == inner.value.end.own && now.listed == inner.value.end.listed)
    ensures PreparedDone(op, s, ops, inner, left, out, now)
  {
  }

  lemma {:induction false} CallbackIsDone(op: Op, s: State, ops: seq<Op>, inner: Option<Run>, left: seq<Op>, out: Outcome,
                                          restored: bool, now: State)
    requires op.CallbackOp? && s.all != [] && !op.noEntry && PreparedDone(op, s, ops, inner, left, out, now)
    requires out.Failed? ==> (restored <==> now.stranded == s.stranded)
    requires var maxStack := s.all[0].frame.iProcDef.iMaxStack;
             NameFits(s.sp, op.name, maxStack) && ParamsFit(s.sp - Size(Str(op.name)), op.args, maxStack)
    ensures CallbackDone(op, s, ops, inner, left, out, restored, now)
  {
    hide Accepts, FirstWith, Typed, ParamsFit, NameFits, CallbackRuns, Prepared;
  }

  lemma {:induction false} CallbackTurns(op: Op, s: State, c: Context, ops: seq<Op>, inner: Option<Run>, left: seq<Op>,
                                         out: Outcome, restored: bool, r: StepResult, now: State)
    requires op.CallbackOp? && s.all != [] && CallbackDone(op, s, ops, inner, left, out, restored, now) && out != Stopped
    requires r == (match out
                   case Finished => Continue
                   case Failed(err) => if restored && !op.propagates then Continue else Leave(err)
                   case _ => Stop(out))
    requires r == Continue || r.Leave? ==> now.all == s.all && now.ip == s.ip
    requires r == Continue ==> if out == Finished then |now.own| == |s.own| + 1 && now.own[1..] == s.own else now.own == s.own
    ensures Effect(op, r, c, s, now) && CalledBack(Turn(op, s, r, now, inner, left, now), c, ops)
  {
    hide CallbackDone;
    assert BackInNative(Turn(op, s, r, now, inner, left, now), out, restored);
  }

  /** What comes next is not part of it. */
  lemma {:induction false} NextIsFree(t: Turn, c: Context, ops: seq<Op>, next: State)
    requires IsTurn(t, c, ops)
    ensures IsTurn(t.(next := next), c, ops)
  {
    hide IsRun, Effect;
    if t.op.CallbackOp? {
      var out, restored :| CallbackDone(t.op, t.before, ops, t.inner, t.rest, out, restored, t.after)
                           && BackInNative(t, out, restored);
      assert BackInNative(t.(next := next), out, restored);
    }
  }

  /** An observation that is at an end has seen all opcodes. */
  lemma {:induction false} ExhaustedHasSeenAll(run: Run, ops: seq<Op>, left: seq<Op>)
    requires IsRun(run, ops, left)
    ensures run.out == Exhausted ==> left == []
    decreases |ops|
  {
    if run.out != Exhausted {
      return;
    }
    var n := |run.turns|;
    if n > 0 && !GoesOn(run.turns[n - 1], run.c) {
      var t, now := run.turns[n - 1], OpsAt(run.turns, ops, n - 1);
      assert InOrder(run.turns, run.c, run.start, ops, n - 1);
      assert t.r == Stop(Exhausted);
      hide IsRun, IsUnderWay, Effect;
      StopsInside(t, run.c, now[1..]);
      ExhaustedHasSeenAll(t.inner.value, now[1..], t.rest);
    }
  }

  /** No error is skipped: wherever an opcode leaves, a handler of this Execute goes
      on, the nearest one there is; or there is none and the error is the outcome,
      with all frames of this Execute gone. */
  lemma {:induction false} NoErrorIsSkipped(run: Run, ops: seq<Op>, left: seq<Op>, i: nat)
    requires IsRun(run, ops, left) && i < |run.turns| && run.turns[i].r.Leave?
    ensures var t := run.turns[i]; var err := t.r.err;
            if Unhandled(t.after, run.c) then
              i == |run.turns| - 1 && run.out == Failed(err) && GaveUp(t.after, err, run.c, run.end) && left == t.rest
            else
              && HandledAt(t.after, err, run.c, t.next)
              && (if i + 1 < |run.turns| then run.turns[i + 1].before == t.next else run.out == Exhausted && run.end == t.next)
  {
    var turns, n := run.turns, |run.turns|;
    hide IsTurn, GaveUp, HandledAt, Unhandled;
    if n > 0 && !GoesOn(turns[n - 1], run.c) {
      if i < n - 1 {
        assert InOrder(turns[..n - 1], run.c, run.start, ops, i) && GoesOn(turns[..n - 1][i], run.c);
        if i + 1 < n - 1 {
          assert InOrder(turns[..n - 1], run.c, run.start, ops, i + 1);
        }
      }
    } else {
      assert InOrder(turns, run.c, run.start, ops, i) && GoesOn(turns[i], run.c);
      if i + 1 < n {
        assert InOrder(turns, run.c, run.start, ops, i + 1);
      }
    }
  }

  lemma {:induction false} FirstTurn(run: Run, ops: seq<Op>, left: seq<Op>)
    requires IsRun(run, ops, left) && ops != []
    ensures run.turns != [] && run.turns[0].op == ops[0] && run.turns[0].before == run.start
    ensures IsTurn(run.turns[0], run.c, ops[1..])
  {
    var turns, n := run.turns, |run.turns|;
    hide IsTurn, GoesOn;
    if n > 0 && !GoesOn(turns[n - 1], run.c) {
      assert n > 1 ==> InOrder(turns[..n - 1], run.c, run.start, ops, 0);
    } else if n > 0 {
      assert InOrder(turns, run.c, run.start, ops, 0);
    }
  }

  /** An opcode that leaves, with no handler anywhere in this Execute, is the end of
      it, whatever the opcodes behind it would do. */
  lemma {:induction false} UnhandledErrorFails(run: Run, ops: seq<Op>, left: seq<Op>)
    requires IsRun(run, ops, left) && ops != [] && ops[0].FailOp? && !run.start.trap
    requires |run.c.base| <= |run.start.all| && Passed(run.start.all, |run.start.all| - |run.c.base|)
    ensures run.out == Failed(ops[0].err) && run.end.all == run.c.base && run.end.depth == run.c.baseDepth && left == ops[1..]
  {
    FirstTurn(run, ops, left);
    assert run.turns[0].r == Leave(ops[0].err);
    NoErrorIsSkipped(run, ops, left, 0);
    hide IsRun, Passed;
  }

  /** With a handler in frame k, and none in the frames above it, the run goes on
      there: those frames have gone, the operands too, and the next opcode is one of
      the handler's code. */
  lemma {:induction false} ErrorGoesToHandler(run: Run, ops: seq<Op>, left: seq<Op>, k: nat)
    requires IsRun(run, ops, left) && ops != [] && ops[0].FailOp? && !run.start.trap
    requires |run.c.base| + k < |run.start.all| && Passed(run.start.all, k)
    requires run.start.all[k].iEvalNestCount == 0 && run.start.all[k].iOnErrIP.Some?
    ensures var next := run.turns[0].next;
            && next.all == run.start.all[k..] && Some(next.ip) == run.start.all[k].iOnErrIP && next.own == []
            && next.depth + k == run.start.depth && next.errorValue == ops[0].err && !next.trap
            && (if |run.turns| > 1 then run.turns[1].before == next else run.out == Exhausted && run.end == next)
  {
    FirstTurn(run, ops, left);
    var t := run.turns[0];
    assert t.r == Leave(ops[0].err) && t.after.all == run.start.all && !t.after.trap && t.after.depth == run.start.depth;
    assert !Unhandled(t.after, run.c) by {
      assert !Passed(t.after.all, |t.after.all| - |run.c.base|);
    }
    NoErrorIsSkipped(run, ops, left, 0);
    hide IsRun, Effect;
    var j := |t.after.all| - |t.next.all|;
    assert t.next.all[0] == t.after.all[j];
  }

  lemma {:induction false} OnlyReturnsExit(t: Turn, c: Context, ops: seq<Op>)
    requires IsTurn(t, c, ops) && t.r == Exit
    ensures t.op.ReturnOp? || t.op.ZeroReturnOp? || t.op.EvalEndOp?
    ensures t.before.all != [] && (t.op.ReturnOp? ==> t.after.own == t.before.own + t.before.all[0].own)
    ensures t.op.ZeroReturnOp? ==> t.after.own == [t.op.zero] + t.before.all[0].own
    ensures t.op.EvalEndOp? ==> t.after == t.before
  {
    hide IsRun, ExpressionRuns, CallbackDone;
  }

  /** Success is never for nothing: the last opcode was a return from the outermost
      procedure of this Execute, or the end of its expression, and the result is the
      value that opcode found. */
  lemma {:induction false} FinishedByReturn(run: Run, ops: seq<Op>, left: seq<Op>)
    requires IsRun(run, ops, left) && run.out == Finished
    ensures run.turns != []
    ensures var t := run.turns[|run.turns| - 1];
            && (t.op.ReturnOp? || t.op.ZeroReturnOp? || t.op.EvalEndOp?) && t.before.all != [] && run.end == t.after
            && (t.op.ReturnOp? ==> run.end.own == t.before.own + t.before.all[0].own)
            && (t.op.ZeroReturnOp? ==> run.end.own == [t.op.zero] + t.before.all[0].own)
            && (t.op.EvalEndOp? ==> run.end == t.before)
  {
    var n := |run.turns|;
    assert n > 0 && InOrder(run.turns, run.c, run.start, ops, n - 1);
    var t := run.turns[n - 1];
    assert t.r == Exit;
    hide IsTurn, IsRun, InOrder, EndsWith, GoesOn;
    assert IsTurn(t, run.c, OpsAt(run.turns, ops, n - 1)[1..]) by { AtEnd(run, ops, n - 1); }
    OnlyReturnsExit(t, run.c, OpsAt(run.turns, ops, n - 1)[1..]);
  }

  lemma {:induction false} AtEnd(run: Run, ops: seq<Op>, i: nat)
    requires i < |run.turns| && InOrder(run.turns, run.c, run.start, ops, i)
    ensures OpsAt(run.turns, ops, i) != [] && IsTurn(run.turns[i], run.c, OpsAt(run.turns, ops, i)[1..])
  {
  }

  // ------------------------------------------------------------ calls in a run

  /** One turn while a procedure called on base runs: it and what it has called are
      still there; or they have gone, by a return with its value on top of what lay
      below the arguments, or in the handler of a caller. */
  lemma {:induction false} AtopTurn(t: Turn, c: Context, ops: seq<Op>, base: seq<Live>, rest: seq<Value>, ip: int)
    requires IsTurn(t, c, ops) && GoesOn(t, c) && Atop(t.before.all, base, rest, ip)
    ensures |t.next.all| > |base| ==> Atop(t.next.all, base, rest, ip)
    ensures |t.next.all| <= |base| ==> Tail(base, t.next.all)
    ensures |t.next.all| <= |base| && t.r == Continue ==>
              t.next.all == base && t.next.ip == ip && |t.next.own| == |rest| + 1 && t.next.own[1..] == rest
  {
    hide Effect, Evaluated, CalledBack, Atop, Passed, Tail;
    AtopNear(t.before.all, t.after.all, base, rest, ip);
    TailSelf(base);
    if t.r.Leave? {
      hide Near, Moves;
      var was, now := t.after.all, t.next.all;
      assert Tail(was, now) by { hide *; assert now == was[|was| - |now|..] by { SuffixOf(t, c); } SuffixIsTail(was, now); }
      if |was| > |base| {
        AtopTail(was, now, base, rest, ip);
      }
    }
  }

  lemma {:induction false} SuffixOf(t: Turn, c: Context)
    requires GoesOn(t, c) && t.r.Leave?
    ensures |t.next.all| <= |t.after.all| && t.next.all == t.after.all[|t.after.all| - |t.next.all|..]
  {
  }

  lemma {:induction false} SuffixIsTail(was: seq<Live>, now: seq<Live>)
    requires |now| <= |was| && now == was[|was| - |now|..]
    ensures Tail(was, now)
  {
  }

  /** The turns of a called procedure, to its return to n frames. */
  ghost predicate BodyRan(turns: seq<Turn>, c: Context, start: State, ops: seq<Op>, left: seq<Op>, n: nat) {
    && IsUnderWay(turns, c, start, ops) && turns != [] && left == OpsAt(turns, ops, |turns|)
    && turns[|turns| - 1].r == Continue && |turns[|turns| - 1].next.all| <= n
    && forall i :: 0 <= i < |turns| - 1 ==> |turns[i].next.all| > n
  }

  lemma {:induction false} BodyHasRan(turns: seq<Turn>, t: Turn, c: Context, start: State, ops: seq<Op>, left: seq<Op>, n: nat)
    requires IsUnderWay(turns + [t], c, start, ops) && left == OpsAt(turns + [t], ops, |turns| + 1)
    requires t.r == Continue && |t.next.all| <= n && forall i :: 0 <= i < |turns| ==> |turns[i].next.all| > n
    ensures BodyRan(turns + [t], c, start, ops, left, n)
  {
    hide IsUnderWay, OpsAt;
  }

  lemma {:induction false} CallIsAtop(turns: seq<Turn>, c: Context, start: State, ops: seq<Op>, i: nat)
    requires IsUnderWay(turns, c, start, ops) && i < |turns|
    requires turns[i].r == Continue && |turns[i].after.all| == |turns[i].before.all| + 1
    ensures var callee := turns[i].after.all[0]; Atop(turns[i].next.all, turns[i].before.all, callee.own, callee.frame.iReturnIP)
  {
    assert InOrder(turns, c, start, ops, i) && GoesOn(turns[i], c);
    hide IsUnderWay;
    TurnIsAtop(turns[i], c, OpsAt(turns, ops, i)[1..]);
  }

  lemma {:induction false} TurnIsAtop(t: Turn, c: Context, ops: seq<Op>)
    requires IsTurn(t, c, ops) && GoesOn(t, c) && t.r == Continue && |t.after.all| == |t.before.all| + 1
    ensures var callee := t.after.all[0]; Atop(t.next.all, t.before.all, callee.own, callee.frame.iReturnIP)
  {
    hide Effect, Evaluated, CalledBack, Atop;
    assert t.after.all[1..] == t.before.all;
    JustAtop(t.after.all, t.before.all);
  }

  lemma {:induction false} StaysAtop(turns: seq<Turn>, c: Context, start: State, ops: seq<Op>, i: nat, j: nat, base: seq<Live>,
                                     rest: seq<Value>, ip: int)
    requires IsUnderWay(turns, c, start, ops) && i <= j < |turns| && Atop(turns[i].next.all, base, rest, ip)
    requires forall k :: i <= k <= j ==> |turns[k].next.all| > |base|
    ensures Atop(turns[j].next.all, base, rest, ip)
    decreases j
  {
    hide IsUnderWay, Atop, Tail;
    if i < j {
      StaysAtop(turns, c, start, ops, i, j - 1, base, rest, ip);
      AtopInOrder(turns, c, start, ops, j, base, rest, ip);
    }
  }

  /** Any call in a run, whatever the procedure does and calls: when the frames above
      the caller have gone for the first time, by a return, the caller's frame and
      code address are as before the call, and so are its operands, except that the
      arguments are gone and the value returned is on top. */
  lemma {:induction false} CallsReturn(turns: seq<Turn>, c: Context, start: State, ops: seq<Op>, i: nat, j: nat)
    requires IsUnderWay(turns, c, start, ops) && i < j < |turns|
    requires turns[i].r == Continue && |turns[i].after.all| == |turns[i].before.all| + 1
    requires forall k :: i <= k < j ==> |turns[k].next.all| > |turns[i].before.all|
    requires |turns[j].next.all| <= |turns[i].before.all|
    ensures var base := turns[i].before.all; var callee := turns[i].after.all[0]; var end := turns[j].next;
            && Tail(base, end.all)
            && (turns[j].r == Continue ==>
                  && end.all == base && end.ip == callee.frame.iReturnIP
                  && |end.own| == |callee.own| + 1 && end.own[1..] == callee.own)
  {
    hide IsUnderWay, Tail, Atop;
    var base, callee := turns[i].before.all, turns[i].after.all[0];
    CallIsAtop(turns, c, start, ops, i);
    StaysAtop(turns, c, start, ops, i, j - 1, base, callee.own, callee.frame.iReturnIP);
    AtopInOrder(turns, c, start, ops, j, base, callee.own, callee.frame.iReturnIP);
  }

  lemma {:induction false} AtopInOrder(turns: seq<Turn>, c: Context, start: State, ops: seq<Op>, k: nat, base: seq<Live>,
                                       rest: seq<Value>, ip: int)
    requires IsUnderWay(turns, c, start, ops) && 0 < k < |turns| && Atop(turns[k - 1].next.all, base, rest, ip)
    ensures var t := turns[k];
            && (|t.next.all| > |base| ==> Atop(t.next.all, base, rest, ip))
            && (|t.next.all| <= |base| ==> Tail(base, t.next.all))
            && (|t.next.all| <= |base| && t.r == Continue ==>
                  t.next.all == base && t.next.ip == ip && |t.next.own| == |rest| + 1 && t.next.own[1..] == rest)
  {
    assert InOrder(turns, c, start, ops, k) && GoesOn(turns[k], c);
    hide IsTurn, GoesOn, Atop, Tail;
    AtopTurn(turns[k], c, OpsAt(turns, ops, k)[1..], base, rest, ip);
  }
}
