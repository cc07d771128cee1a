/** The stack machine: its instructions, words and one-instruction steps.

    The stack is one flat sequence. A frame starts at `home`; the two words below it hold the
    return instruction pointer and the caller's home. One executor alone never writes to a structure
    again, so a structure word simply contains its fields; the three instructions on memory that
    executors share have no meaning here and are given one in module Lazy. */
module Machine {
  import opened Lang

  datatype Prefix =
    | SwitchIf | SwitchEnd | UnionTypeEqual | UnionGetEnd | LazyGetNotIdle | LazyGetReturnResult
    | ExecLabel | EntryPoint

  datatype Label = FuncLabel(func: FuncId) | Generated(prefix: Prefix, num: nat)

  datatype Instr =
    | LoadLitInt(i: int)
    | LoadLitIp(target: Label)
    | StackAlloc(amount: nat)
    | StackStore(offset: nat)
    | StackLoad(offset: nat)
    | Arith2(bop: BinOp)
    | Arith1(uop: UnOp)
    | CheckStructNull
    | MakeStruct(count: nat)
    | MakeNullStruct
    | StructLoadField(index: nat)
    | StructStoreField(index: nat)
    | AtomicCompareSwap(expected: int, desired: int)
    | AtomicBlock(expected: int)
    | Jump(target: Label)
    | JumpIf(target: Label)
    | Call(argCount: nat, target: Label, tail: bool)
    | CallDyn(argCount: nat, tail: bool)
    | PCall(code: nat, arity: nat)
    | Ret
    | Dup
    | Pop
    | Fail

  datatype Word =
    | WInt(i: int)
    | WIp(ip: nat)
    | WHome(home: nat)
    | WNull
    | WStruct(fields: seq<Word>)

  datatype Code = Code(instrs: seq<Instr>, labels: map<Label, nat>)

  /** `Done` is a return from the root frame, `Failed` a stop the instruction set defines and
      `Stuck` a state the machine gives no meaning to. */
  datatype State =
    | Running(ip: nat, stack: seq<Word>, home: nat, world: World)
    | Done(world: World)
    | Failed(failure: Failure)
    | Stuck

  function Top(stack: seq<Word>): Word
    requires stack != []
  {
    stack[|stack| - 1]
  }

  function Drop(stack: seq<Word>, n: nat): seq<Word>
    requires n <= |stack|
  {
    stack[..|stack| - n]
  }

  function Last(stack: seq<Word>, n: nat): seq<Word>
    requires n <= |stack|
  {
    stack[|stack| - n..]
  }

  function WordInts(ws: seq<Word>): Option<seq<int>> {
    if forall i :: 0 <= i < |ws| ==> ws[i].WInt?
    then Some(seq(|ws|, i requires 0 <= i < |ws| => ws[i].i))
    else None
  }

  /** Goes on at the next instruction with another stack. */
  function Next(s: State, stack: seq<Word>): (r: State)
    requires s.Running?
    ensures r.Running?
  {
    s.(ip := s.ip + 1, stack := stack)
  }

  function Goto(c: Code, s: State, l: Label): State
    requires s.Running?
  {
    if l in c.labels then s.(ip := c.labels[l]) else Stuck
  }

  /** Opens a frame for the topmost `argCount` words. */
  function EnterCall(s: State, argCount: nat, tgt: nat): State
    requires s.Running?
  {
    if argCount <= |s.stack| then
      s.(ip := tgt,
      stack := Drop(s.stack, argCount) + [WIp(s.ip + 1), WHome(s.home)] + Last(s.stack, argCount),
      home := |s.stack| - argCount + 2)
    else Stuck
  }

  /** Discards the current frame and reuses its place for the topmost `argCount` words. */
  function EnterTail(s: State, argCount: nat, tgt: nat): State
    requires s.Running?
  {
    if s.home + argCount <= |s.stack| then
      s.(ip := tgt, stack := s.stack[..s.home] + Last(s.stack, argCount))
    else Stuck
  }

  function Enter(s: State, argCount: nat, tgt: nat, tail: bool): State
    requires s.Running?
  {
    if tail then EnterTail(s, argCount, tgt) else EnterCall(s, argCount, tgt)
  }

  function StepCallDyn(s: State, argCount: nat, tail: bool): State
    requires s.Running?
  {
    if s.stack == [] then Stuck
    else
      match Top(s.stack)
      case WIp(ip) => Enter(s.(stack := Drop(s.stack, 1)), argCount, ip, tail)
      case WStruct(fields) =>
        if fields != [] && Top(fields).WIp? then
          Enter(s.(stack := Drop(s.stack, 1) + Drop(fields, 1)), argCount + |fields| - 1, Top(fields).ip, tail)
        else Stuck
      case _ => Stuck
  }

  function StepRet(s: State): State
    requires s.Running?
  {
    if s.home == 0 then Done(s.world)
    else if 2 <= s.home < |s.stack| && s.stack[s.home - 2].WIp? && s.stack[s.home - 1].WHome? then
      Running(s.stack[s.home - 2].ip, s.stack[..s.home - 2] + [Top(s.stack)], s.stack[s.home - 1].home,
              s.world)
    else Stuck
  }

  function StepPCall(s: State, code: nat, arity: nat): State
    requires s.Running?
  {
    if arity <= |s.stack| && |s.world.replies| > 0 && WordInts(Last(s.stack, arity)).Some? then
      Running(s.ip + 1, Drop(s.stack, arity) + [WInt(s.world.replies[0])], s.home,
              World(s.world.done + [Event(code, WordInts(Last(s.stack, arity)).value)],
                    s.world.replies[1..]))
    else Stuck
  }

  function StepArith2(s: State, op: BinOp): State
    requires s.Running?
  {
    var n := |s.stack|;
    if n >= 2 && s.stack[n - 1].WInt? && s.stack[n - 2].WInt? then
      match ApplyBin(op, s.stack[n - 2].i, s.stack[n - 1].i)
      case Some(r) => Next(s, Drop(s.stack, 2) + [WInt(r)])
      case None => if DividesByZero(op, s.stack[n - 1].i) then Failed(Failure(DividedByZero, s.world)) else Stuck
    else Stuck
  }

  function Exec(c: Code, s: State, i: Instr): State
    requires s.Running?
  {
    var st := s.stack;
    match i
    case LoadLitInt(v) => Next(s, st + [WInt(v)])
    case LoadLitIp(l) => if l in c.labels then Next(s, st + [WIp(c.labels[l])]) else Stuck
    case StackAlloc(n) => Next(s, st + seq(n, _ => WInt(0)))
    case StackStore(o) =>
      if st != [] && s.home + o < |st| - 1 then Next(s, Drop(st, 1)[s.home + o := Top(st)]) else Stuck
    case StackLoad(o) => if s.home + o < |st| then Next(s, st + [st[s.home + o]]) else Stuck
    case Arith2(op) => StepArith2(s, op)
    case Arith1(op) =>
      if st != [] && Top(st).WInt? then Next(s, Drop(st, 1) + [WInt(ApplyUn(op, Top(st).i))]) else Stuck
    case CheckStructNull =>
      if st != [] && (Top(st).WNull? || Top(st).WStruct?)
      then Next(s, Drop(st, 1) + [WInt(Bool(Top(st).WNull?))])
      else Stuck
    case MakeStruct(n) =>
      if 0 < n <= |st| then Next(s, Drop(st, n) + [WStruct(Last(st, n))]) else Stuck
    case MakeNullStruct => Next(s, st + [WNull])
    case StructLoadField(f) =>
      if st != [] && Top(st).WStruct? && f < |Top(st).fields|
      then Next(s, Drop(st, 1) + [Top(st).fields[f]])
      else Stuck
    case Jump(l) => Goto(c, s, l)
    case JumpIf(l) =>
      if st != [] && Top(st).WInt? then
        if Top(st).i != 0 then Goto(c, s.(stack := Drop(st, 1)), l) else Next(s, Drop(st, 1))
      else Stuck
    case Call(n, l, tail) => if l in c.labels then Enter(s, n, c.labels[l], tail) else Stuck
    case CallDyn(n, tail) => StepCallDyn(s, n, tail)
    case PCall(code, arity) => StepPCall(s, code, arity)
    case Ret => StepRet(s)
    case Dup => if st != [] then Next(s, st + [Top(st)]) else Stuck
    case Pop => if st != [] then Next(s, Drop(st, 1)) else Stuck
    case Fail => Failed(Failure(FailCalled, s.world))
    case _ => Stuck
  }

  function Step(c: Code, s: State): State {
    if !s.Running? then s
    else if s.ip < |c.instrs| then Exec(c, s, c.instrs[s.ip])
    else Stuck
  }

  function Run(c: Code, s: State, n: nat): State
    decreases n
  {
    if n == 0 then s else Run(c, Step(c, s), n - 1)
  }

  ghost predicate Reaches(c: Code, s: State, t: State) {
    exists n: nat :: Run(c, s, n) == t
  }

  lemma RunAdd(c: Code, s: State, m: nat, n: nat)
    ensures Run(c, s, m + n) == Run(c, Run(c, s, m), n)
    decreases m
  {
    if m > 0 { RunAdd(c, Step(c, s), m - 1, n); }
  }

  lemma ReachRefl(c: Code, s: State)
    ensures Reaches(c, s, s)
  {
    assert Run(c, s, 0) == s;
  }

  lemma ReachTrans(c: Code, s: State, t: State, u: State)
    requires Reaches(c, s, t) && Reaches(c, t, u)
    ensures Reaches(c, s, u)
  {
    var m: nat :| Run(c, s, m) == t;
    var n: nat :| Run(c, t, n) == u;
    RunAdd(c, s, m, n);
  }

  /** Appends one instruction to a run. */
  lemma ReachStep(c: Code, s: State, t: State, i: Instr)
    requires Reaches(c, s, t)
    requires t.Running? && t.ip < |c.instrs| && c.instrs[t.ip] == i
    ensures Reaches(c, s, Exec(c, t, i))
  {
    var m: nat :| Run(c, s, m) == t;
    RunAdd(c, s, m, 1);
    assert Run(c, t, 1) == Step(c, t);
  }
}
