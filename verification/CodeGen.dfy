/** What the code generator emits, as a function of the expression, the tail flag, the number of
    values asked for, the place of the code and the label counter. */
module CodeGen {
  import opened Lang
  import opened Machine

  datatype Decl = Decl(name: Label, at: nat)

  /** A piece of generated code, the labels declared in it and the label counter after it. */
  datatype Seg = Seg(code: seq<Instr>, decls: seq<Decl>, next: nat)
  {
    function Emit(more: seq<Instr>): Seg {
      Seg(code + more, decls, next)
    }

    function Cat(s: Seg): Seg {
      Seg(code + s.code, decls + s.decls, s.next)
    }

    function Declare(l: Label, at: nat): Seg {
      Seg(code, decls + [Decl(l, at)], next)
    }
  }

  datatype SwitchCode = SwitchCode(end: Label, tests: Seg, other: Seg, at: nat, rest: Seg, endPos: nat)
  {
    function All(): Seg {
      tests.Cat(other).Emit([Jump(end)]).Cat(rest).Declare(end, endPos)
    }
  }

  predicate StructIsTagType(p: Program, t: TypeId) {
    p.IsStruct(t) && p.types[t].fields == []
  }

  /** Two structs, one without fields and one with at least two. */
  predicate UnionIsNullableStruct(p: Program, u: TypeId) {
    p.IsUnion(u) &&
    var types := p.types[u].members;
    && |types| == 2
    && (forall t | t in types :: p.IsStruct(t))
    && (exists t | t in types :: StructIsTagType(p, t))
    && (exists t | t in types :: p.IsStruct(t) && |p.types[t].fields| >= 2)
  }

  function UnionDiscriminant(p: Program, u: TypeId, t: TypeId): nat {
    if p.IsUnion(u) then IndexOf(p.types[u].members, t) else 0
  }

  /** A struct with one field is represented by that field. */
  function FieldInstrs(p: Program, s: TypeId, index: nat): seq<Instr> {
    if p.IsStruct(s) && |p.types[s].fields| == 1 then [] else [StructLoadField(Narrow8(index))]
  }

  /** Replaces a union on top of the stack by whether it is of member type t. */
  function UnionTest(p: Program, u: TypeId, t: TypeId): seq<Instr> {
    if UnionIsNullableStruct(p, u) then
      if StructIsTagType(p, t) then [CheckStructNull] else [CheckStructNull, Arith1(CheckIntZero)]
    else [StructLoadField(0), LoadLitInt(UnionDiscriminant(p, u, t)), Arith2(CheckEqInt)]
  }

  function ConstOffset(consts: ConstTable, id: ConstId): nat {
    IndexOf(consts.All(), id)
  }

  /** The conversion of a count to an 8 bit operand. */
  function Narrow8(n: nat): nat {
    n % 256
  }

  function Repeat<T>(x: T, n: nat): (r: seq<T>)
    ensures |r| == n && forall i :: 0 <= i < n ==> r[i] == x
  {
    if n == 0 then [] else [x] + Repeat(x, n - 1)
  }

  /** How many values an expression leaves on the stack when asked for `req`. */
  function Produced(e: Expr, req: nat): nat {
    if e.Assign? && req == 0 then 0 else 1
  }

  function Gen(p: Program, sc: Scope, e: Expr, tail: bool, req: nat, pos: nat, ctr: nat): Seg
    decreases e
  {
    match e
    case LitBool(b) => Seg([LoadLitInt(Bool(b))], [], ctr)
    case LitInt(i) => Seg([LoadLitInt(i)], [], ctr)
    case LitFunc(f) => Seg([LoadLitIp(FuncLabel(f))], [], ctr)
    case ConstRef(id) => Seg([StackLoad(ConstOffset(sc.consts, id))], [], ctr)
    case Assign(id, init) =>
      Gen(p, sc, init, false, 1, pos, ctr).Emit(
        (if req > 0 then [Dup] else []) + [StackStore(ConstOffset(sc.consts, id))])
    case Group(es) => GenGroup(p, sc, es, tail, pos, ctr)
    case Switch(cs, bs) =>
      if |bs| != |cs| + 1 then Seg([], [], ctr) else GenSwitch(p, sc, e, tail, pos, ctr).All()
    case Call(f, args) =>
      if f >= |p.funcs| then Seg([], [], ctr)
      else if p.funcs[f].kind.MakeUnion? then
        if |args| != 1 then Seg([], [], ctr)
        else GenUnion(p, sc, p.funcs[f].kind.utype, p.funcs[f].kind.member, args, tail, pos, ctr)
      else GenAll(p, sc, args, pos, ctr).Emit(CallInstrs(p, f, |args|, tail))
    case CallDyn(tgt, args, _) =>
      var s1 := GenAll(p, sc, args, pos, ctr);
      s1.Cat(Gen(p, sc, tgt, false, 1, pos + |s1.code|, s1.next)).Emit([Instr.CallDyn(Narrow8(|args|), tail)])
    case CallSelf(args) =>
      if sc.func.None? || !p.IsUser(sc.func.value) then Seg([], [], ctr)
      else
        GenAll(p, sc, args, pos, ctr).Emit(
          LoadConsts(sc.consts, sc.consts.bound)
          + [Instr.Call(Narrow8(|p.funcs[sc.func.value].kind.consts.Inputs()|), FuncLabel(sc.func.value), tail)])
    case Closure(f, args) =>
      GenAll(p, sc, args, pos, ctr).Emit([LoadLitIp(FuncLabel(f)), Instr.MakeStruct(Narrow8(|args| + 1))])
    case Field(s, lhs, index) =>
      Gen(p, sc, lhs, false, 1, pos, ctr).Emit(FieldInstrs(p, s, index))
    case UnionCheck(u, lhs, t) =>
      Gen(p, sc, lhs, false, 1, pos, ctr).Emit(UnionTest(p, u, t))
    case UnionGet(u, lhs, t, id) =>
      var s1 := Gen(p, sc, lhs, false, 1, pos, ctr);
      if UnionIsNullableStruct(p, u) then
        s1.Emit(
          (if StructIsTagType(p, t) then [] else [Dup, StackStore(ConstOffset(sc.consts, id))])
          + UnionTest(p, u, t))
      else GetMember(s1, UnionTest(p, u, t), ConstOffset(sc.consts, id), pos + |s1.code|)
    case FailNode => Seg([Instr.Fail], [], ctr)
  }

  /** Stores the member of a union whose code is s1 in a slot, if the test says it is there, and
      leaves whether it was. */
  function GetMember(s1: Seg, test: seq<Instr>, slot: nat, at: nat): Seg {
    var equal, end := Generated(UnionTypeEqual, s1.next), Generated(UnionGetEnd, s1.next + 1);
    s1.Emit([Dup] + test + GetArms(equal, end, slot))
    .Declare(equal, at + |test| + 5).Declare(end, at + |test| + 8).(next := s1.next + 2)
  }

  function GetArms(equal: Label, end: Label, slot: nat): seq<Instr> {
    [JumpIf(equal), Pop, LoadLitInt(0), Jump(end),
     StructLoadField(1), StackStore(slot), LoadLitInt(1)]
  }

  /** Code for a list of operands, each leaving its value on the stack. */
  function GenAll(p: Program, sc: Scope, es: seq<Expr>, pos: nat, ctr: nat): Seg
    decreases es
  {
    if es == [] then Seg([], [], ctr)
    else
      var s := Gen(p, sc, es[0], false, 1, pos, ctr);
      s.Cat(GenAll(p, sc, es[1..], pos + |s.code|, s.next))
  }

  /** The pieces of a switch: the tests fall through to the last branch; the other branches follow. */
  function GenSwitch(p: Program, sc: Scope, e: Expr, tail: bool, pos: nat, ctr: nat): SwitchCode
    requires e.Switch? && |e.branches| == |e.conds| + 1
    decreases e, 0
  {
    var n := |e.conds|;
    var end := Generated(SwitchEnd, ctr + n);
    var tests := GenConds(p, sc, e.conds, ctr, pos, ctr + n + 1);
    var other := Gen(p, sc, e.branches[n], tail, 1, pos + |tests.code|, tests.next);
    var at := pos + |tests.code| + |other.code| + 1;
    var rest := GenBranches(p, sc, e.branches, tail, ctr, end, at, other.next);
    SwitchCode(end, tests, other, at, rest, at + |rest.code|)
  }

  /** Code for a group: every value but the last is popped again. */
  function GenGroup(p: Program, sc: Scope, es: seq<Expr>, tail: bool, pos: nat, ctr: nat): Seg
    decreases es
  {
    if es == [] then Seg([], [], ctr)
    else if |es| == 1 then Gen(p, sc, es[0], tail, 1, pos, ctr)
    else
      var s := Gen(p, sc, es[0], false, 0, pos, ctr).Emit(Repeat(Pop, Produced(es[0], 0)));
      s.Cat(GenGroup(p, sc, es[1..], tail, pos + |s.code|, s.next))
  }

  /** The tests of a switch; condition i jumps to label `first + i` when it holds. */
  function GenConds(p: Program, sc: Scope, cs: seq<Expr>, first: nat, pos: nat, ctr: nat): Seg
    decreases cs
  {
    if cs == [] then Seg([], [], ctr)
    else
      var s := Gen(p, sc, cs[0], false, 1, pos, ctr).Emit([JumpIf(Generated(SwitchIf, first))]);
      s.Cat(GenConds(p, sc, cs[1..], first + 1, pos + |s.code|, s.next))
  }

  /** The conditional branches of a switch (all of `bs` but its last element); every one but the
      last ends with a jump to the end. */
  function GenBranches(
    p: Program, sc: Scope, bs: seq<Expr>, tail: bool, first: nat, end: Label, pos: nat, ctr: nat): Seg
    decreases bs
  {
    if |bs| <= 1 then Seg([], [], ctr)
    else
      var s := Seg([], [], ctr).Declare(Generated(SwitchIf, first), pos)
               .Cat(Gen(p, sc, bs[0], tail, 1, pos, ctr)).Emit(if |bs| > 2 then [Jump(end)] else []);
      s.Cat(GenBranches(p, sc, bs[1..], tail, first + 1, end, pos + |s.code|, s.next))
  }

  /** Code that makes union u out of its one operand, of member type t. */
  function GenUnion(
    p: Program, sc: Scope, u: TypeId, t: TypeId, args: seq<Expr>, tail: bool, pos: nat, ctr: nat): Seg
    requires |args| == 1
    decreases args
  {
    if UnionIsNullableStruct(p, u) then
      if StructIsTagType(p, t) then
        (if sc.isAction then Gen(p, sc, args[0], false, 1, pos, ctr).Emit([Pop]) else Seg([], [], ctr))
        .Emit([MakeNullStruct])
      else Gen(p, sc, args[0], tail, 1, pos, ctr)
    else
      Seg([LoadLitInt(UnionDiscriminant(p, u, t))], [], ctr)
      .Cat(Gen(p, sc, args[0], false, 1, pos + 1, ctr)).Emit([Instr.MakeStruct(2)])
  }

  /** The instructions after the operands of a call. */
  function CallInstrs(p: Program, f: FuncId, argCount: nat, tail: bool): seq<Instr>
    requires f < |p.funcs|
  {
    match p.funcs[f].kind
    case User(consts, _) => [Instr.Call(Narrow8(|consts.Inputs()|), FuncLabel(f), tail)]
    case NoOp => if argCount == 0 then [LoadLitInt(0)] else Repeat(Pop, argCount - 1)
    case Binary(op) => [Arith2(op)]
    case Unary(op) => [Arith1(op)]
    case MakeStruct(_) =>
      if argCount == 0 then [MakeNullStruct]
      else if argCount == 1 then []
      else [Instr.MakeStruct(Narrow8(argCount))]
    case MakeUnion(_, _) => []
    case Fail => [Instr.Fail]
    case Action(code, arity) => [PCall(code, arity)]
  }

  function LoadConsts(consts: ConstTable, ids: seq<ConstId>): (r: seq<Instr>)
    ensures |r| == |ids|
    ensures forall i :: 0 <= i < |ids| ==> r[i] == StackLoad(ConstOffset(consts, ids[i]))
  {
    if ids == [] then []
    else [StackLoad(ConstOffset(consts, ids[0]))] + LoadConsts(consts, ids[1..])
  }

  function ReserveConsts(consts: ConstTable): seq<Instr> {
    if |consts.locals| > 0 then [StackAlloc(|consts.locals|)] else []
  }

  function GenFunc(p: Program, f: FuncId, pos: nat, ctr: nat): Seg
    requires p.IsUser(f)
  {
    var kind := p.funcs[f].kind;
    var s := Seg(ReserveConsts(kind.consts), [Decl(FuncLabel(f), pos)], ctr);
    s.Cat(Gen(p, FuncScope(p, f), kind.body, true, 1, pos + |s.code|, ctr)).Emit([Ret])
  }

  function GenExec(p: Program, x: ExecStmt, pos: nat, ctr: nat): Seg {
    var s := Seg(ReserveConsts(x.consts), [Decl(Generated(ExecLabel, ctr), pos)], ctr + 1);
    s.Cat(Gen(p, ExecScope(x), x.expr, false, 1, pos + |s.code|, s.next)).Emit([Ret])
  }

  // ----- One step of each list -----

  lemma AllGen(p: Program, sc: Scope, es: seq<Expr>, pos: nat, ctr: nat)
    ensures es == [] ==> GenAll(p, sc, es, pos, ctr) == Seg([], [], ctr)
    ensures es != [] ==>
              var s := Gen(p, sc, es[0], false, 1, pos, ctr);
              GenAll(p, sc, es, pos, ctr) == s.Cat(GenAll(p, sc, es[1..], pos + |s.code|, s.next))
  {
    hide Gen;
  }

  /** An element of a group that is not the last. */
  function ElementSeg(p: Program, sc: Scope, es: seq<Expr>, pos: nat, ctr: nat): Seg
    requires es != []
  {
    Gen(p, sc, es[0], false, 0, pos, ctr).Emit(Repeat(Pop, Produced(es[0], 0)))
  }

  lemma GroupGen(p: Program, sc: Scope, es: seq<Expr>, tail: bool, pos: nat, ctr: nat)
    requires |es| > 1
    ensures var s := ElementSeg(p, sc, es, pos, ctr);
            GenGroup(p, sc, es, tail, pos, ctr) == s.Cat(GenGroup(p, sc, es[1..], tail, pos + |s.code|, s.next))
  {
    hide Gen;
  }

  lemma GroupEnds(p: Program, sc: Scope, es: seq<Expr>, tail: bool, pos: nat, ctr: nat)
    ensures es == [] ==> GenGroup(p, sc, es, tail, pos, ctr) == Seg([], [], ctr)
    ensures |es| == 1 ==> GenGroup(p, sc, es, tail, pos, ctr) == Gen(p, sc, es[0], tail, 1, pos, ctr)
  {
    hide Gen;
  }

  lemma CondsGen(p: Program, sc: Scope, cs: seq<Expr>, first: nat, pos: nat, ctr: nat)
    ensures cs == [] ==> GenConds(p, sc, cs, first, pos, ctr) == Seg([], [], ctr)
    ensures cs != [] ==>
              var s := Gen(p, sc, cs[0], false, 1, pos, ctr).Emit([JumpIf(Generated(SwitchIf, first))]);
              GenConds(p, sc, cs, first, pos, ctr) == s.Cat(GenConds(p, sc, cs[1..], first + 1, pos + |s.code|, s.next))
  {
    hide Gen;
  }

  lemma BranchesGen(p: Program, sc: Scope, bs: seq<Expr>, tail: bool, first: nat, end: Label, pos: nat, ctr: nat)
    requires bs != []
    ensures |bs| == 1 ==> GenBranches(p, sc, bs, tail, first, end, pos, ctr) == Seg([], [], ctr)
    ensures |bs| > 1 ==>
              var start := Seg([], [], ctr).Declare(Generated(SwitchIf, first), pos);
              var s := start.Cat(Gen(p, sc, bs[0], tail, 1, pos, ctr)).Emit(if |bs| > 2 then [Jump(end)] else []);
              GenBranches(p, sc, bs, tail, first, end, pos, ctr)
              == s.Cat(GenBranches(p, sc, bs[1..], tail, first + 1, end, pos + |s.code|, s.next))
  {
    hide Gen;
  }
}
