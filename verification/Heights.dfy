/** Stack heights: in all generated code every path that reaches an instruction arrives with the same
    height, no instruction reaches below the height at which its expression began, and an expression
    leaves exactly the values it reports. This says nothing of what the values are and holds of runs
    that fail or never end as well. */
module Heights {
  import opened Lang
  import opened Machine
  import opened CodeGen

  // ----- What instructions do to the height -----

  function Pops(i: Instr): nat {
    match i
    case StackStore(_) => 1
    case Arith2(_) => 2
    case Arith1(_) => 1
    case CheckStructNull => 1
    case MakeStruct(n) => n
    case StructLoadField(_) => 1
    case StructStoreField(_) => 2
    case AtomicCompareSwap(_, _) => 1
    case AtomicBlock(_) => 1
    case JumpIf(_) => 1
    case Call(n, _, _) => n
    case CallDyn(n, _) => n + 1
    case PCall(_, arity) => arity
    case Ret => 1
    case Dup => 1
    case Pop => 1
    case _ => 0
  }

  /** For a call this is the height after the callee has returned. */
  function Pushes(i: Instr): nat {
    match i
    case StackAlloc(n) => n
    case StackStore(_) => 0
    case StructStoreField(_) => 0
    case AtomicBlock(_) => 0
    case Jump(_) => 0
    case JumpIf(_) => 0
    case Ret => 0
    case Pop => 0
    case Dup => 2
    case Fail => 0
    case _ => 1
  }

  /** The next instruction may be executed after i. */
  predicate Falls(i: Instr) {
    match i
    case Jump(_) => false
    case Ret => false
    case Fail => false
    case Call(_, _, tail) => !tail
    case CallDyn(_, tail) => !tail
    case _ => true
  }

  type Marks = map<Label, nat>

  /** Instruction i at height h, with height h2 at the next one and the labels at their heights. */
  predicate StepOk(i: Instr, h: nat, h2: nat, marks: Marks, floor: nat) {
    && floor + Pops(i) <= h
    && (Falls(i) ==> h2 == h - Pops(i) + Pushes(i))
    && (i.Jump? || i.JumpIf? ==> i.target in marks && marks[i.target] == h - Pops(i))
  }

  ghost predicate Flow(code: seq<Instr>, hs: seq<nat>, marks: Marks, floor: nat) {
    |hs| == |code| + 1 && forall i | 0 <= i < |code| :: StepOk(code[i], hs[i], hs[i + 1], marks, floor)
  }

  /** Every declared label marks the height of its place. */
  ghost predicate Marked(decls: seq<Decl>, pos: nat, hs: seq<nat>, marks: Marks) {
    forall d | d in decls ::
      d.name in marks && pos <= d.at < pos + |hs| && marks[d.name] == hs[d.at - pos]
  }

  predicate Numbered(marks: Marks, hi: nat) {
    forall l | l in marks && l.Generated? :: l.num < hi
  }

  ghost predicate More(a: Marks, b: Marks) {
    forall l | l in a :: l in b && b[l] == a[l]
  }

  /** The code of s, placed at pos and entered at height h, has these heights and ends at height out. */
  ghost predicate Balanced(s: Seg, pos: nat, h: nat, out: nat, hs: seq<nat>, marks: Marks) {
    && Flow(s.code, hs, marks, h) && hs[0] == h && hs[|s.code|] == out && Marked(s.decls, pos, hs, marks)
    && Numbered(marks, s.next)
  }

  // ----- Putting code together -----

  lemma EmptyOk(pos: nat, h: nat, ctr: nat, marks: Marks)
    requires Numbered(marks, ctr)
    ensures Balanced(Seg([], [], ctr), pos, h, h, [h], marks)
  {}

  lemma FlowMore(code: seq<Instr>, hs: seq<nat>, a: Marks, b: Marks, floor: nat, floor2: nat)
    requires Flow(code, hs, a, floor) && More(a, b) && floor2 <= floor
    ensures Flow(code, hs, b, floor2)
  {
    forall i | 0 <= i < |code| ensures StepOk(code[i], hs[i], hs[i + 1], b, floor2) {
      assert StepOk(code[i], hs[i], hs[i + 1], a, floor);
    }
  }

  lemma FlowCat(c1: seq<Instr>, hs1: seq<nat>, c2: seq<Instr>, hs2: seq<nat>, marks: Marks, floor: nat)
    requires Flow(c1, hs1, marks, floor) && Flow(c2, hs2, marks, floor) && hs1[|c1|] == hs2[0]
    ensures Flow(c1 + c2, hs1 + hs2[1..], marks, floor)
  {
    var code, hs := c1 + c2, hs1 + hs2[1..];
    forall i | 0 <= i < |code| ensures StepOk(code[i], hs[i], hs[i + 1], marks, floor) {
      if i < |c1| {
        assert StepOk(c1[i], hs1[i], hs1[i + 1], marks, floor);
      } else {
        assert StepOk(c2[i - |c1|], hs2[i - |c1|], hs2[i - |c1| + 1], marks, floor);
      }
    }
  }

  lemma MarkedMore(decls: seq<Decl>, pos: nat, hs: seq<nat>, a: Marks, b: Marks, more: seq<nat>)
    requires Marked(decls, pos, hs, a) && More(a, b)
    ensures Marked(decls, pos, hs + more, b)
  {}

  lemma MarkedLater(decls: seq<Decl>, pos: nat, hs: seq<nat>, marks: Marks, hs1: seq<nat>, n: nat)
    requires Marked(decls, pos + n, hs, marks) && |hs1| == n + 1 && hs != [] && hs1[n] == hs[0]
    ensures Marked(decls, pos, hs1 + hs[1..], marks)
  {
    forall d | d in decls
      ensures d.name in marks && pos <= d.at < pos + |hs1 + hs[1..]| && marks[d.name] == (hs1 + hs[1..])[d.at - pos]
    {
      assert marks[d.name] == hs[d.at - (pos + n)];
    }
  }

  /** Code after code. */
  lemma CatOk(
    s1: Seg, s2: Seg, pos: nat, h: nat, mid: nat, out: nat, hs1: seq<nat>, hs2: seq<nat>, m1: Marks, m2: Marks)
    requires Balanced(s1, pos, h, mid, hs1, m1) && Balanced(s2, pos + |s1.code|, mid, out, hs2, m2)
    requires More(m1, m2) && h <= mid
    ensures Balanced(s1.Cat(s2), pos, h, out, hs1 + hs2[1..], m2)
  {
    FlowMore(s1.code, hs1, m1, m2, h, h);
    FlowMore(s2.code, hs2, m2, m2, mid, h);
    FlowCat(s1.code, hs1, s2.code, hs2, m2, h);
    MarkedMore(s1.decls, pos, hs1, m1, m2, hs2[1..]);
    MarkedLater(s2.decls, pos, hs2, m2, hs1, |s1.code|);
  }

  /** One more instruction. */
  lemma EmitOk(s: Seg, pos: nat, h: nat, mid: nat, out: nat, hs: seq<nat>, marks: Marks, i: Instr)
    requires Balanced(s, pos, h, mid, hs, marks) && StepOk(i, mid, out, marks, h)
    ensures Balanced(s.Emit([i]), pos, h, out, hs + [out], marks)
  {
    var one := [mid, out];
    assert Flow([i], one, marks, h) && one[1..] == [out];
    FlowCat(s.code, hs, [i], one, marks, h);
    MarkedMore(s.decls, pos, hs, marks, marks, [out]);
  }

  lemma EmitTwo(s: Seg, pos: nat, h: nat, mid: nat, mid2: nat, out: nat, hs: seq<nat>, marks: Marks, i: Instr, j: Instr)
    requires Balanced(s, pos, h, mid, hs, marks)
    requires StepOk(i, mid, mid2, marks, h) && StepOk(j, mid2, out, marks, h)
    ensures Balanced(s.Emit([i, j]), pos, h, out, hs + [mid2] + [out], marks)
  {
    EmitOk(s, pos, h, mid, mid2, hs, marks, i);
    EmitOk(s.Emit([i]), pos, h, mid2, out, hs + [mid2], marks, j);
    assert s.code + [i] + [j] == s.code + [i, j];
  }

  lemma EmitTwice(s: Seg, a: seq<Instr>, b: seq<Instr>)
    ensures s.Emit(a).Emit(b) == s.Emit(a + b)
  {
    assert s.code + a + b == s.code + (a + b);
  }

  lemma UpTo(s: Seg, pos: nat, h: nat, out: nat, hs: seq<nat>, marks: Marks)
    requires Balanced(s, pos, h, out, hs, marks)
    ensures Numbered(marks, s.next)
  {}

  lemma Lengths(s: Seg, pos: nat, h: nat, out: nat, hs: seq<nat>, marks: Marks)
    requires Balanced(s, pos, h, out, hs, marks)
    ensures |hs| == |s.code| + 1
  {}

  lemma {:induction false} PopsOk(s: Seg, pos: nat, h: nat, out: nat, hs: seq<nat>, marks: Marks, n: nat)
    returns (hs2: seq<nat>)
    requires Balanced(s, pos, h, out + n, hs, marks) && h <= out
    ensures Balanced(s.Emit(Repeat(Pop, n)), pos, h, out, hs2, marks)
    decreases n
  {
    hide Balanced;
    if n == 0 {
      hs2 := hs;
      assert s.code + [] == s.code;
    } else {
      EmitOk(s, pos, h, out + n, out + n - 1, hs, marks, Pop);
      hs2 := PopsOk(s.Emit([Pop]), pos, h, out, hs + [out + n - 1], marks, n - 1);
      EmitTwice(s, [Instr.Pop], Repeat(Pop, n - 1));
    }
  }

  lemma {:induction false} LoadsOk(
    s: Seg, pos: nat, h: nat, mid: nat, hs: seq<nat>, marks: Marks, consts: ConstTable, ids: seq<ConstId>)
    returns (hs2: seq<nat>)
    requires Balanced(s, pos, h, mid, hs, marks) && h <= mid
    ensures Balanced(s.Emit(LoadConsts(consts, ids)), pos, h, mid + |ids|, hs2, marks)
    decreases |ids|
  {
    hide Balanced, ConstOffset;
    if ids == [] {
      hs2 := hs;
      assert s.code + [] == s.code;
    } else {
      var i := StackLoad(ConstOffset(consts, ids[0]));
      EmitOk(s, pos, h, mid, mid + 1, hs, marks, i);
      hs2 := LoadsOk(s.Emit([i]), pos, h, mid + 1, hs + [mid + 1], marks, consts, ids[1..]);
      EmitTwice(s, [i], LoadConsts(consts, ids[1..]));
    }
  }

  // ----- Well-formed programs -----

  /** Calls supply as many arguments as their function takes, and the counts fit in a byte. */
  predicate CallShaped(p: Program, f: FuncId, n: nat) {
    f < |p.funcs| && n < 255 &&
    match p.funcs[f].kind
    case User(consts, _) => n == |consts.Inputs()|
    case Binary(_) => n == 2
    case Unary(_) => n == 1
    case MakeUnion(_, _) => n == 1
    case Action(_, arity) => n == arity
    case _ => true
  }

  predicate Shaped(p: Program, sc: Scope, e: Expr)
    decreases e, 0
  {
    match e
    case Assign(_, init) => Shaped(p, sc, init)
    case Group(es) => es != [] && AllShaped(p, sc, es)
    case Switch(cs, bs) => |bs| == |cs| + 1 && AllShaped(p, sc, cs) && AllShaped(p, sc, bs)
    case Call(f, args) => CallShaped(p, f, |args|) && AllShaped(p, sc, args)
    case CallDyn(tgt, args, _) => |args| < 255 && Shaped(p, sc, tgt) && AllShaped(p, sc, args)
    case CallSelf(args) =>
      && sc.func.Some? && p.IsUser(sc.func.value) && AllShaped(p, sc, args)
      && |p.funcs[sc.func.value].kind.consts.Inputs()| == |args| + |sc.consts.bound| < 255
    case Closure(_, args) => |args| < 255 && AllShaped(p, sc, args)
    case Field(_, lhs, _) => Shaped(p, sc, lhs)
    case UnionCheck(_, lhs, _) => Shaped(p, sc, lhs)
    case UnionGet(_, lhs, _, _) => Shaped(p, sc, lhs)
    case _ => true
  }

  predicate AllShaped(p: Program, sc: Scope, es: seq<Expr>)
    decreases es, 1
  {
    forall e | e in es :: Shaped(p, sc, e)
  }

  // ----- All generated code is balanced -----

  /** The main theorem: wherever it is placed and whatever the height it is entered at, the code of an
      expression has one height at each instruction and ends with the values it reports on top. */
  lemma {:induction false} GenBalanced(
    p: Program, sc: Scope, e: Expr, tail: bool, req: nat, pos: nat, ctr: nat, h: nat, known: Marks)
    returns (hs: seq<nat>, marks: Marks)
    requires Shaped(p, sc, e) && Numbered(known, ctr)
    ensures Balanced(Gen(p, sc, e, tail, req, pos, ctr), pos, h, h + Produced(e, req), hs, marks) && More(known, marks)
    decreases e, 1
  {
    hide GenAll, GenGroup, GenUnion, GenSwitch, GetMember, CallInstrs, FieldInstrs, UnionTest, Balanced, LoadConsts, Numbered;
    var s0 := Seg([], [], ctr);
    EmptyOk(pos, h, ctr, known);
    match e
    case Assign(id, init) => hs, marks := AssignBalanced(p, sc, e, tail, req, pos, ctr, h, known);
    case Group(es) => hs, marks := GroupBalanced(p, sc, es, tail, pos, ctr, h, known);
    case Switch(_, _) => hs, marks := SwitchBalanced(p, sc, e, tail, pos, ctr, h, known);
    case Call(_, _) => hs, marks := CallBalanced(p, sc, e, tail, req, pos, ctr, h, known);
    case CallDyn(_, _, _) => hs, marks := DynBalanced(p, sc, e, tail, req, pos, ctr, h, known);
    case CallSelf(_) => hs, marks := SelfBalanced(p, sc, e, tail, req, pos, ctr, h, known);
    case Closure(f, args) =>
      hs, marks := AllBalanced(p, sc, args, pos, ctr, h, known);
      EmitTwo(GenAll(p, sc, args, pos, ctr), pos, h, h + |args|, h + |args| + 1, h + 1, hs, marks,
              LoadLitIp(FuncLabel(f)), Instr.MakeStruct(Narrow8(|args| + 1)));
      hs := hs + [h + |args| + 1] + [h + 1];
    case Field(s, lhs, index) =>
      hs, marks := GenBalanced(p, sc, lhs, false, 1, pos, ctr, h, known);
      hs := FieldBalanced(p, Gen(p, sc, lhs, false, 1, pos, ctr), pos, h, hs, marks, s, index);
    case UnionCheck(u, lhs, t) =>
      hs, marks := GenBalanced(p, sc, lhs, false, 1, pos, ctr, h, known);
      hs := TestBalanced(p, Gen(p, sc, lhs, false, 1, pos, ctr), pos, h, h, hs, marks, u, t);
    case UnionGet(_, _, _, _) => hs, marks := GetBalanced(p, sc, e, tail, req, pos, ctr, h, known);
    case FailNode =>
      EmitOk(s0, pos, h, h, h + 1, [h], known, Instr.Fail);
      hs, marks := [h] + [h + 1], known;
      assert [] + [Instr.Fail] == [Instr.Fail];
    case _ =>
      var i := Gen(p, sc, e, tail, req, pos, ctr).code[0];
      EmitOk(s0, pos, h, h, h + 1, [h], known, i);
      hs, marks := [h] + [h + 1], known;
      assert [] + [i] == [i];
  }

  lemma FieldBalanced(
    p: Program, s1: Seg, pos: nat, h: nat, hs: seq<nat>, marks: Marks, s: TypeId, index: nat) returns (hs2: seq<nat>)
    requires Balanced(s1, pos, h, h + 1, hs, marks)
    ensures Balanced(s1.Emit(FieldInstrs(p, s, index)), pos, h, h + 1, hs2, marks)
  {
    if FieldInstrs(p, s, index) == [] {
      hs2 := hs;
      assert s1.code + [] == s1.code;
    } else {
      EmitOk(s1, pos, h, h + 1, h + 1, hs, marks, StructLoadField(Narrow8(index)));
      hs2 := hs + [h + 1];
    }
  }

  /** A union on top becomes the answer of a test; mid values lie below it. */
  lemma TestBalanced(
    p: Program, s1: Seg, pos: nat, h: nat, mid: nat, hs: seq<nat>, marks: Marks, u: TypeId, t: TypeId)
    returns (hs2: seq<nat>)
    requires Balanced(s1, pos, h, mid + 1, hs, marks) && h <= mid
    ensures Balanced(s1.Emit(UnionTest(p, u, t)), pos, h, mid + 1, hs2, marks)
  {
    hide Balanced, UnionIsNullableStruct;
    var test := UnionTest(p, u, t);
    if |test| == 1 {
      EmitOk(s1, pos, h, mid + 1, mid + 1, hs, marks, CheckStructNull);
      hs2 := hs + [mid + 1];
    } else if |test| == 2 {
      EmitTwo(s1, pos, h, mid + 1, mid + 1, mid + 1, hs, marks, test[0], test[1]);
      hs2 := hs + [mid + 1] + [mid + 1];
    } else {
      EmitTwo(s1, pos, h, mid + 1, mid + 1, mid + 2, hs, marks, test[0], test[1]);
      EmitOk(s1.Emit([test[0], test[1]]), pos, h, mid + 2, mid + 1, hs + [mid + 1] + [mid + 2], marks, test[2]);
      hs2 := hs + [mid + 1] + [mid + 2] + [mid + 1];
      assert s1.code + [test[0], test[1]] + [test[2]] == s1.code + test;
    }
  }

  lemma {:induction false} AssignBalanced(
    p: Program, sc: Scope, e: Expr, tail: bool, req: nat, pos: nat, ctr: nat, h: nat, known: Marks)
    returns (hs: seq<nat>, marks: Marks)
    requires e.Assign? && Shaped(p, sc, e) && Numbered(known, ctr)
    ensures Balanced(Gen(p, sc, e, tail, req, pos, ctr), pos, h, h + Produced(e, req), hs, marks) && More(known, marks)
    decreases e, 0
  {
    hide Balanced, Numbered, Gen, ConstOffset, More;
    AssignGen(p, sc, e, tail, req, pos, ctr);
    var s1, store := Gen(p, sc, e.init, false, 1, pos, ctr), StackStore(ConstOffset(sc.consts, e.id));
    hs, marks := GenBalanced(p, sc, e.init, false, 1, pos, ctr, h, known);
    if req > 0 {
      EmitTwo(s1, pos, h, h + 1, h + 2, h + 1, hs, marks, Dup, store);
      hs := hs + [h + 2] + [h + 1];
    } else {
      EmitOk(s1, pos, h, h + 1, h, hs, marks, store);
      hs := hs + [h];
    }
  }

  lemma AssignGen(p: Program, sc: Scope, e: Expr, tail: bool, req: nat, pos: nat, ctr: nat)
    requires e.Assign?
    ensures var store := StackStore(ConstOffset(sc.consts, e.id));
            Gen(p, sc, e, tail, req, pos, ctr)
            == Gen(p, sc, e.init, false, 1, pos, ctr).Emit(if req > 0 then [Dup, store] else [store])
  {
    var store := StackStore(ConstOffset(sc.consts, e.id));
    assert [Dup] + [store] == [Dup, store] && [] + [store] == [store];
  }

  /** Operands lie one above the other. */
  lemma {:induction false} AllBalanced(
    p: Program, sc: Scope, es: seq<Expr>, pos: nat, ctr: nat, h: nat, known: Marks)
    returns (hs: seq<nat>, marks: Marks)
    requires AllShaped(p, sc, es) && Numbered(known, ctr)
    ensures Balanced(GenAll(p, sc, es, pos, ctr), pos, h, h + |es|, hs, marks) && More(known, marks)
    decreases es, 0
  {
    if es == [] {
      hs, marks := [h], known;
      EmptyOk(pos, h, ctr, known);
    } else {
      assert es[0] in es && forall e | e in es[1..] :: e in es;
      var s := Gen(p, sc, es[0], false, 1, pos, ctr);
      var rest := GenAll(p, sc, es[1..], pos + |s.code|, s.next);
      assert GenAll(p, sc, es, pos, ctr) == s.Cat(rest);
      hide Gen, GenAll, Flow, Marked;
      var hs1, m1 := GenBalanced(p, sc, es[0], false, 1, pos, ctr, h, known);
      var hs2, m2 := AllBalanced(p, sc, es[1..], pos + |s.code|, s.next, h + 1, m1);
      CatOk(s, rest, pos, h, h + 1, h + |es|, hs1, hs2, m1, m2);
      hs, marks := hs1 + hs2[1..], m2;
    }
  }

  /** Every element but the last leaves nothing. */
  lemma {:induction false} GroupBalanced(
    p: Program, sc: Scope, es: seq<Expr>, tail: bool, pos: nat, ctr: nat, h: nat, known: Marks)
    returns (hs: seq<nat>, marks: Marks)
    requires es != [] && AllShaped(p, sc, es) && Numbered(known, ctr)
    ensures Balanced(GenGroup(p, sc, es, tail, pos, ctr), pos, h, h + 1, hs, marks) && More(known, marks)
    decreases es, 0
  {
    assert es[0] in es && forall e | e in es[1..] :: e in es;
    if |es| == 1 {
      hs, marks := GenBalanced(p, sc, es[0], tail, 1, pos, ctr, h, known);
    } else {
      var n := Produced(es[0], 0);
      var first := Gen(p, sc, es[0], false, 0, pos, ctr);
      var s := first.Emit(Repeat(Pop, n));
      var rest := GenGroup(p, sc, es[1..], tail, pos + |s.code|, s.next);
      assert GenGroup(p, sc, es, tail, pos, ctr) == s.Cat(rest);
      hide Gen, GenGroup, Flow, Marked, Repeat;
      var hs1, m1 := GenBalanced(p, sc, es[0], false, 0, pos, ctr, h, known);
      hs1 := PopsOk(first, pos, h, h, hs1, m1, n);
      var hs2, m2 := GroupBalanced(p, sc, es[1..], tail, pos + |s.code|, s.next, h, m1);
      CatOk(s, rest, pos, h, h, h + 1, hs1, hs2, m1, m2);
      hs, marks := hs1 + hs2[1..], m2;
    }
  }

  lemma {:induction false} CallBalanced(
    p: Program, sc: Scope, e: Expr, tail: bool, req: nat, pos: nat, ctr: nat, h: nat, known: Marks)
    returns (hs: seq<nat>, marks: Marks)
    requires e.Call? && Shaped(p, sc, e) && Numbered(known, ctr)
    ensures Balanced(Gen(p, sc, e, tail, req, pos, ctr), pos, h, h + Produced(e, req), hs, marks) && More(known, marks)
    decreases e, 0
  {
    hide GenAll, GenUnion, Balanced, Numbered, CallInstrs;
    var f, args := e.func, e.args;
    if p.funcs[f].kind.MakeUnion? {
      hs, marks := UnionBalanced(p, sc, p.funcs[f].kind.utype, p.funcs[f].kind.member, args, tail, pos, ctr, h, known);
    } else {
      hs, marks := AllBalanced(p, sc, args, pos, ctr, h, known);
      hs := InstrsBalanced(p, GenAll(p, sc, args, pos, ctr), pos, h, hs, marks, f, |args|, tail);
    }
  }

  /** The instructions of a call turn its arguments into one value. */
  lemma InstrsBalanced(
    p: Program, s: Seg, pos: nat, h: nat, hs: seq<nat>, marks: Marks, f: FuncId, n: nat, tail: bool)
    returns (hs2: seq<nat>)
    requires CallShaped(p, f, n) && !p.funcs[f].kind.MakeUnion? && Balanced(s, pos, h, h + n, hs, marks)
    ensures Balanced(s.Emit(CallInstrs(p, f, n, tail)), pos, h, h + 1, hs2, marks)
  {
    hide Balanced, Repeat;
    var emitted := CallInstrs(p, f, n, tail);
    if p.funcs[f].kind.NoOp? && n > 0 {
      hs2 := PopsOk(s, pos, h, h + 1, hs, marks, n - 1);
    } else if |emitted| == 0 {
      hs2 := hs;
      assert s.code + [] == s.code;
    } else {
      assert emitted == [emitted[0]];
      EmitOk(s, pos, h, h + n, h + 1, hs, marks, emitted[0]);
      hs2 := hs + [h + 1];
    }
  }

  lemma {:induction false} UnionBalanced(
    p: Program, sc: Scope, u: TypeId, t: TypeId, args: seq<Expr>, tail: bool, pos: nat, ctr: nat, h: nat, known: Marks)
    returns (hs: seq<nat>, marks: Marks)
    requires |args| == 1 && AllShaped(p, sc, args) && Numbered(known, ctr)
    ensures Balanced(GenUnion(p, sc, u, t, args, tail, pos, ctr), pos, h, h + 1, hs, marks) && More(known, marks)
    decreases args, 0
  {
    hide Balanced, Numbered, Gen, UnionIsNullableStruct, StructIsTagType;
    assert args[0] in args;
    EmptyOk(pos, h, ctr, known);
    var s0 := Seg([], [], ctr);
    if UnionIsNullableStruct(p, u) {
      if StructIsTagType(p, t) {
        var s := s0;
        hs, marks := [h], known;
        if sc.isAction {
          hs, marks := GenBalanced(p, sc, args[0], false, 1, pos, ctr, h, known);
          s := Gen(p, sc, args[0], false, 1, pos, ctr);
          EmitOk(s, pos, h, h + 1, h, hs, marks, Pop);
          s, hs := s.Emit([Pop]), hs + [h];
        }
        EmitOk(s, pos, h, h, h + 1, hs, marks, MakeNullStruct);
        hs := hs + [h + 1];
      } else {
        hs, marks := GenBalanced(p, sc, args[0], tail, 1, pos, ctr, h, known);
      }
    } else {
      var i := LoadLitInt(UnionDiscriminant(p, u, t));
      EmitOk(s0, pos, h, h, h + 1, [h], known, i);
      assert [] + [i] == [i];
      var hs2;
      hs2, marks := GenBalanced(p, sc, args[0], false, 1, pos + 1, ctr, h + 1, known);
      var s1, s2 := Seg([i], [], ctr), Gen(p, sc, args[0], false, 1, pos + 1, ctr);
      Lengths(s2, pos + 1, h + 1, h + 2, hs2, marks);
      CatOk(s1, s2, pos, h, h + 1, h + 2, [h] + [h + 1], hs2, known, marks);
      EmitOk(s1.Cat(s2), pos, h, h + 2, h + 1, [h] + [h + 1] + hs2[1..], marks, Instr.MakeStruct(2));
      hs := [h] + [h + 1] + hs2[1..] + [h + 1];
    }
  }

  lemma {:induction false} DynBalanced(
    p: Program, sc: Scope, e: Expr, tail: bool, req: nat, pos: nat, ctr: nat, h: nat, known: Marks)
    returns (hs: seq<nat>, marks: Marks)
    requires e.CallDyn? && Shaped(p, sc, e) && Numbered(known, ctr)
    ensures Balanced(Gen(p, sc, e, tail, req, pos, ctr), pos, h, h + Produced(e, req), hs, marks) && More(known, marks)
    decreases e, 0
  {
    hide Gen, GenAll, Balanced, Numbered;
    var s1 := GenAll(p, sc, e.args, pos, ctr);
    var s2 := Gen(p, sc, e.tgt, false, 1, pos + |s1.code|, s1.next);
    var n, i := |e.args|, Instr.CallDyn(Narrow8(|e.args|), tail);
    DynGen(p, sc, e, tail, req, pos, ctr);
    var hs1, m1 := AllBalanced(p, sc, e.args, pos, ctr, h, known);
    UpTo(s1, pos, h, h + n, hs1, m1);
    var hs2, m2 := GenBalanced(p, sc, e.tgt, false, 1, pos + |s1.code|, s1.next, h + n, m1);
    Lengths(s2, pos + |s1.code|, h + n, h + n + 1, hs2, m2);
    CatOk(s1, s2, pos, h, h + n, h + n + 1, hs1, hs2, m1, m2);
    EmitOk(s1.Cat(s2), pos, h, h + n + 1, h + 1, hs1 + hs2[1..], m2, i);
    hs, marks := hs1 + hs2[1..] + [h + 1], m2;
  }

  lemma DynGen(p: Program, sc: Scope, e: Expr, tail: bool, req: nat, pos: nat, ctr: nat)
    requires e.CallDyn?
    ensures var s1 := GenAll(p, sc, e.args, pos, ctr);
            var s2 := Gen(p, sc, e.tgt, false, 1, pos + |s1.code|, s1.next);
            Gen(p, sc, e, tail, req, pos, ctr) == s1.Cat(s2).Emit([Instr.CallDyn(Narrow8(|e.args|), tail)])
  {}

  lemma SelfGen(p: Program, sc: Scope, e: Expr, tail: bool, req: nat, pos: nat, ctr: nat)
    requires e.CallSelf? && sc.func.Some? && p.IsUser(sc.func.value)
    ensures var i := Instr.Call(Narrow8(|p.funcs[sc.func.value].kind.consts.Inputs()|), FuncLabel(sc.func.value), tail);
            Gen(p, sc, e, tail, req, pos, ctr)
            == GenAll(p, sc, e.args, pos, ctr).Emit(LoadConsts(sc.consts, sc.consts.bound) + [i])
  {}

  lemma {:induction false} SelfBalanced(
    p: Program, sc: Scope, e: Expr, tail: bool, req: nat, pos: nat, ctr: nat, h: nat, known: Marks)
    returns (hs: seq<nat>, marks: Marks)
    requires e.CallSelf? && Shaped(p, sc, e) && Numbered(known, ctr)
    ensures Balanced(Gen(p, sc, e, tail, req, pos, ctr), pos, h, h + Produced(e, req), hs, marks) && More(known, marks)
    decreases e, 0
  {
    hide Gen, GenAll, Balanced, Numbered, LoadConsts;
    var s1, loads := GenAll(p, sc, e.args, pos, ctr), LoadConsts(sc.consts, sc.consts.bound);
    var n, m := |e.args|, |sc.consts.bound|;
    var i := Instr.Call(Narrow8(|p.funcs[sc.func.value].kind.consts.Inputs()|), FuncLabel(sc.func.value), tail);
    SelfGen(p, sc, e, tail, req, pos, ctr);
    hs, marks := AllBalanced(p, sc, e.args, pos, ctr, h, known);
    hs := LoadsOk(s1, pos, h, h + n, hs, marks, sc.consts, sc.consts.bound);
    EmitOk(s1.Emit(loads), pos, h, h + n + m, h + 1, hs, marks, i);
    hs := hs + [h + 1];
    EmitTwice(s1, loads, [i]);
  }

  // ----- Union gets -----

  lemma {:induction false} GetBalanced(
    p: Program, sc: Scope, e: Expr, tail: bool, req: nat, pos: nat, ctr: nat, h: nat, known: Marks)
    returns (hs: seq<nat>, marks: Marks)
    requires e.UnionGet? && Shaped(p, sc, e) && Numbered(known, ctr)
    ensures Balanced(Gen(p, sc, e, tail, req, pos, ctr), pos, h, h + Produced(e, req), hs, marks) && More(known, marks)
    decreases e, 0
  {
    hide Balanced, Numbered, UnionIsNullableStruct, StructIsTagType, UnionTest, GetMember, Gen, ConstOffset;
    GetGen(p, sc, e, tail, req, pos, ctr);
    var s1, test := Gen(p, sc, e.lhs, false, 1, pos, ctr), UnionTest(p, e.utype, e.target);
    var slot := ConstOffset(sc.consts, e.id);
    hs, marks := GenBalanced(p, sc, e.lhs, false, 1, pos, ctr, h, known);
    if !UnionIsNullableStruct(p, e.utype) {
      hs, marks := MemberBalanced(p, s1, pos, h, hs, marks, e.utype, e.target, slot);
    } else if StructIsTagType(p, e.target) {
      hs := TestBalanced(p, s1, pos, h, h, hs, marks, e.utype, e.target);
    } else {
      EmitTwo(s1, pos, h, h + 1, h + 2, h + 1, hs, marks, Dup, StackStore(slot));
      hs := TestBalanced(p, s1.Emit([Dup, StackStore(slot)]), pos, h, h, hs + [h + 2] + [h + 1], marks, e.utype, e.target);
    }
  }

  lemma GetGen(p: Program, sc: Scope, e: Expr, tail: bool, req: nat, pos: nat, ctr: nat)
    requires e.UnionGet?
    ensures var s1, test := Gen(p, sc, e.lhs, false, 1, pos, ctr), UnionTest(p, e.utype, e.target);
            var slot := ConstOffset(sc.consts, e.id);
            Gen(p, sc, e, tail, req, pos, ctr)
            == if !UnionIsNullableStruct(p, e.utype) then GetMember(s1, test, slot, pos + |s1.code|)
               else if StructIsTagType(p, e.target) then s1.Emit(test)
               else s1.Emit([Dup, StackStore(slot)]).Emit(test)
  {
    hide UnionIsNullableStruct, StructIsTagType, UnionTest, GetMember;
    var s1, test := Gen(p, sc, e.lhs, false, 1, pos, ctr), UnionTest(p, e.utype, e.target);
    assert [] + test == test;
    EmitTwice(s1, [Dup, StackStore(ConstOffset(sc.consts, e.id))], test);
  }

  /** Both ways through a union get end with one value. */
  lemma MemberBalanced(
    p: Program, s1: Seg, pos: nat, h: nat, hs: seq<nat>, marks: Marks, u: TypeId, t: TypeId, slot: nat)
    returns (hs2: seq<nat>, marks2: Marks)
    requires Balanced(s1, pos, h, h + 1, hs, marks)
    ensures Balanced(GetMember(s1, UnionTest(p, u, t), slot, pos + |s1.code|), pos, h, h + 1, hs2, marks2)
    ensures More(marks, marks2)
  {
    var test, at := UnionTest(p, u, t), pos + |s1.code|;
    var equal, end := Generated(UnionTypeEqual, s1.next), Generated(UnionGetEnd, s1.next + 1);
    marks2 := marks[equal := h + 1][end := h + 1];
    Reserve(s1, pos, h, h + 1, hs, marks, marks2, 2);
    var s := s1.(next := s1.next + 2);
    hide Balanced, Flow, UnionTest;
    EmitOk(s, pos, h, h + 1, h + 2, hs, marks2, Dup);
    var tested := TestBalanced(p, s.Emit([Dup]), pos, h, h + 1, hs + [h + 2], marks2, u, t);
    var s2 := s.Emit([Dup]).Emit(test);
    assert s2.code == s1.code + ([Dup] + test);
    hs2 := ArmsBalanced(s2, pos, h, tested, marks2, equal, end, slot);
    ArmsPlaced(s1, s2, test, pos, h, tested, hs2, marks2, slot);
  }

  /** Some label numbers are taken. */
  lemma Reserve(s: Seg, pos: nat, h: nat, out: nat, hs: seq<nat>, a: Marks, b: Marks, n: nat)
    requires Balanced(s, pos, h, out, hs, a) && More(a, b) && Numbered(b, s.next + n)
    ensures Balanced(s.(next := s.next + n), pos, h, out, hs, b)
  {
    FlowMore(s.code, hs, a, b, h, h);
    MarkedMore(s.decls, pos, hs, a, b, []);
    assert hs + [] == hs;
  }

  lemma ArmsBalanced(
    s: Seg, pos: nat, h: nat, hs: seq<nat>, marks: Marks, equal: Label, end: Label, slot: nat) returns (hs2: seq<nat>)
    requires Balanced(s, pos, h, h + 2, hs, marks) && equal in marks && end in marks
    requires marks[equal] == h + 1 && marks[end] == h + 1
    ensures Balanced(s.Emit(GetArms(equal, end, slot)), pos, h, h + 1, hs2, marks)
    ensures hs2 == hs + [h + 1, h, h + 1, h + 1, h + 1, h, h + 1]
  {
    hide Balanced;
    var arms := GetArms(equal, end, slot);
    EmitTwo(s, pos, h, h + 2, h + 1, h, hs, marks, arms[0], arms[1]);
    var a := s.Emit(arms[..2]);
    assert arms[..2] == [arms[0], arms[1]];
    EmitTwo(a, pos, h, h, h + 1, h + 1, hs + [h + 1] + [h], marks, arms[2], arms[3]);
    var b := a.Emit([arms[2], arms[3]]);
    EmitTwo(b, pos, h, h + 1, h + 1, h, hs + [h + 1] + [h] + [h + 1] + [h + 1], marks, arms[4], arms[5]);
    var c := b.Emit([arms[4], arms[5]]);
    EmitOk(c, pos, h, h, h + 1, hs + [h + 1] + [h] + [h + 1] + [h + 1] + [h + 1] + [h], marks, arms[6]);
    hs2 := hs + [h + 1] + [h] + [h + 1] + [h + 1] + [h + 1] + [h] + [h + 1];
    assert s.code + [arms[0], arms[1]] + [arms[2], arms[3]] + [arms[4], arms[5]] + [arms[6]] == s.code + arms;
  }

  lemma ArmsPlaced(
    s1: Seg, s2: Seg, test: seq<Instr>, pos: nat, h: nat, tested: seq<nat>, hs: seq<nat>, marks: Marks, slot: nat)
    requires var equal, end := Generated(UnionTypeEqual, s1.next), Generated(UnionGetEnd, s1.next + 1);
             && s2 == Seg(s1.code + ([Dup] + test), s1.decls, s1.next + 2)
             && Balanced(s2.Emit(GetArms(equal, end, slot)), pos, h, h + 1, hs, marks)
             && |tested| == |s2.code| + 1 && hs == tested + [h + 1, h, h + 1, h + 1, h + 1, h, h + 1]
             && equal in marks && end in marks && marks[equal] == h + 1 && marks[end] == h + 1
    ensures Balanced(GetMember(s1, test, slot, pos + |s1.code|), pos, h, h + 1, hs, marks)
  {
    var equal, end := Generated(UnionTypeEqual, s1.next), Generated(UnionGetEnd, s1.next + 1);
    var at := pos + |s1.code|;
    var s := s2.Emit(GetArms(equal, end, slot));
    var r := GetMember(s1, test, slot, at);
    assert r.code == s.code && r.next == s.next;
    assert r.decls == s1.decls + [Decl(equal, at + |test| + 5)] + [Decl(end, at + |test| + 8)];
    hide Flow;
    assert hs[at + |test| + 5 - pos] == h + 1 && hs[at + |test| + 8 - pos] == h + 1;
  }

  // ----- Switches -----

  /** The labels of the branches mark the height at which the switch began. */
  ghost predicate BranchMarks(marks: Marks, first: nat, n: nat, h: nat) {
    forall i | first <= i < first + n :: Generated(SwitchIf, i) in marks && marks[Generated(SwitchIf, i)] == h
  }

  function WithBranches(marks: Marks, first: nat, n: nat, h: nat): (r: Marks)
    requires Numbered(marks, first)
    ensures More(marks, r) && BranchMarks(r, first, n, h) && Numbered(r, first + n)
  {
    if n == 0 then marks else WithBranches(marks, first, n - 1, h)[Generated(SwitchIf, first + n - 1) := h]
  }

  lemma MoreTrans(a: Marks, b: Marks, c: Marks)
    requires More(a, b) && More(b, c)
    ensures More(a, c)
  {}

  lemma MoreRefl(a: Marks)
    ensures More(a, a)
  {}

  /** The mark of the first branch, and of those after it. */
  lemma NextBranch(a: Marks, b: Marks, first: nat, n: nat, h: nat)
    requires BranchMarks(a, first, n, h) && More(a, b) && n > 0
    ensures Generated(SwitchIf, first) in b && b[Generated(SwitchIf, first)] == h
    ensures BranchMarks(b, first + 1, n - 1, h)
  {
    assert Generated(SwitchIf, first) in a;
  }

  lemma RestShaped(p: Program, sc: Scope, es: seq<Expr>)
    requires AllShaped(p, sc, es) && es != []
    ensures Shaped(p, sc, es[0]) && AllShaped(p, sc, es[1..])
  {
    assert es[0] in es && forall e | e in es[1..] :: e in es;
  }

  lemma {:induction false} CondsBalanced(
    p: Program, sc: Scope, cs: seq<Expr>, first: nat, pos: nat, ctr: nat, h: nat, known: Marks)
    returns (hs: seq<nat>, marks: Marks)
    requires AllShaped(p, sc, cs) && Numbered(known, ctr) && BranchMarks(known, first, |cs|, h)
    ensures Balanced(GenConds(p, sc, cs, first, pos, ctr), pos, h, h, hs, marks) && More(known, marks)
    decreases cs, 0
  {
    hide Gen, GenConds, Balanced, More, BranchMarks, Numbered, Shaped, AllShaped;
    CondsGen(p, sc, cs, first, pos, ctr);
    if cs == [] {
      hs, marks := [h], known;
      EmptyOk(pos, h, ctr, known);
      MoreRefl(known);
    } else {
      var test, jump := Gen(p, sc, cs[0], false, 1, pos, ctr), JumpIf(Generated(SwitchIf, first));
      var s := test.Emit([jump]);
      var rest := GenConds(p, sc, cs[1..], first + 1, pos + |s.code|, s.next);
      RestShaped(p, sc, cs);
      var hs1, m1 := GenBalanced(p, sc, cs[0], false, 1, pos, ctr, h, known);
      NextBranch(known, m1, first, |cs|, h);
      EmitOk(test, pos, h, h + 1, h, hs1, m1, jump);
      UpTo(s, pos, h, h, hs1 + [h], m1);
      var hs2, m2 := CondsBalanced(p, sc, cs[1..], first + 1, pos + |s.code|, s.next, h, m1);
      Lengths(rest, pos + |s.code|, h, h, hs2, m2);
      CatOk(s, rest, pos, h, h, h, hs1 + [h], hs2, m1, m2);
      MoreTrans(known, m1, m2);
      hs, marks := hs1 + [h] + hs2[1..], m2;
    }
  }

  lemma {:induction false} BranchesBalanced(
    p: Program, sc: Scope, bs: seq<Expr>, tail: bool, first: nat, end: Label, pos: nat, ctr: nat, h: nat, known: Marks)
    returns (hs: seq<nat>, marks: Marks)
    requires |bs| > 1 && AllShaped(p, sc, bs) && Numbered(known, ctr) && BranchMarks(known, first, |bs| - 1, h)
    requires end in known && known[end] == h + 1
    ensures Balanced(GenBranches(p, sc, bs, tail, first, end, pos, ctr), pos, h, h + 1, hs, marks) && More(known, marks)
    decreases bs, 0
  {
    hide Gen, GenBranches, Balanced, BranchMarks, Numbered, Shaped, AllShaped;
    RestShaped(p, sc, bs);
    var hs1, m1 := BranchBalanced(p, sc, bs[0], tail, first, |bs| - 1, pos, ctr, h, known);
    var s := BranchSeg(p, sc, bs[0], tail, first, pos, ctr);
    if |bs| > 2 {
      var s2 := s.Emit([Jump(end)]);
      var rest := GenBranches(p, sc, bs[1..], tail, first + 1, end, pos + |s2.code|, s2.next);
      NextBranchGen(p, sc, bs, tail, first, end, pos, ctr);
      EmitOk(s, pos, h, h + 1, h, hs1, m1, Jump(end));
      UpTo(s2, pos, h, h, hs1 + [h], m1);
      NextBranch(known, m1, first, |bs| - 1, h);
      var hs2, m2 := BranchesBalanced(p, sc, bs[1..], tail, first + 1, end, pos + |s2.code|, s2.next, h, m1);
      Lengths(rest, pos + |s2.code|, h, h + 1, hs2, m2);
      CatOk(s2, rest, pos, h, h, h + 1, hs1 + [h], hs2, m1, m2);
      hs, marks := hs1 + [h] + hs2[1..], m2;
      MoreTrans(known, m1, m2);
    } else {
      LastBranchGen(p, sc, bs, tail, first, end, pos, ctr);
      hs, marks := hs1, m1;
    }
  }

  /** One branch: its label and its code. */
  function BranchSeg(p: Program, sc: Scope, b: Expr, tail: bool, first: nat, pos: nat, ctr: nat): Seg {
    Seg([], [], ctr).Declare(Generated(SwitchIf, first), pos).Cat(Gen(p, sc, b, tail, 1, pos, ctr))
  }

  lemma {:induction false} BranchBalanced(
    p: Program, sc: Scope, b: Expr, tail: bool, first: nat, n: nat, pos: nat, ctr: nat, h: nat, known: Marks)
    returns (hs: seq<nat>, marks: Marks)
    requires Shaped(p, sc, b) && Numbered(known, ctr) && BranchMarks(known, first, n, h) && n > 0
    ensures Balanced(BranchSeg(p, sc, b, tail, first, pos, ctr), pos, h, h + 1, hs, marks) && More(known, marks)
    decreases b, 2
  {
    hide Gen, Balanced, Numbered, Shaped;
    var start := Seg([], [], ctr).Declare(Generated(SwitchIf, first), pos);
    DeclareOk(pos, h, ctr, known, Generated(SwitchIf, first));
    var hs1;
    hs1, marks := GenBalanced(p, sc, b, tail, 1, pos, ctr, h, known);
    Lengths(Gen(p, sc, b, tail, 1, pos, ctr), pos, h, h + 1, hs1, marks);
    CatOk(start, Gen(p, sc, b, tail, 1, pos, ctr), pos, h, h, h + 1, [h], hs1, known, marks);
    hs := [h] + hs1[1..];
  }

  lemma NextBranchGen(p: Program, sc: Scope, bs: seq<Expr>, tail: bool, first: nat, end: Label, pos: nat, ctr: nat)
    requires |bs| > 2
    ensures var s := BranchSeg(p, sc, bs[0], tail, first, pos, ctr).Emit([Jump(end)]);
            GenBranches(p, sc, bs, tail, first, end, pos, ctr)
            == s.Cat(GenBranches(p, sc, bs[1..], tail, first + 1, end, pos + |s.code|, s.next))
  {
    hide Gen;
  }

  lemma LastBranchGen(p: Program, sc: Scope, bs: seq<Expr>, tail: bool, first: nat, end: Label, pos: nat, ctr: nat)
    requires |bs| == 2
    ensures GenBranches(p, sc, bs, tail, first, end, pos, ctr) == BranchSeg(p, sc, bs[0], tail, first, pos, ctr)
  {
    var s := BranchSeg(p, sc, bs[0], tail, first, pos, ctr);
    hide Gen;
    assert s.code + [] == s.code && s.decls + [] == s.decls;
    assert GenBranches(p, sc, bs[1..], tail, first + 1, end, pos + |s.code|, s.next) == Seg([], [], s.next);
  }

  lemma DeclareOk(pos: nat, h: nat, ctr: nat, marks: Marks, name: Label)
    requires Numbered(marks, ctr) && name in marks && marks[name] == h
    ensures Balanced(Seg([], [], ctr).Declare(name, pos), pos, h, h, [h], marks)
  {}

  /** A label at the end. */
  lemma DeclareLast(s: Seg, pos: nat, h: nat, out: nat, hs: seq<nat>, marks: Marks, name: Label)
    requires Balanced(s, pos, h, out, hs, marks) && name in marks && marks[name] == out
    ensures Balanced(s.Declare(name, pos + |s.code|), pos, h, out, hs, marks)
  {}

  lemma {:induction false} SwitchBalanced(
    p: Program, sc: Scope, e: Expr, tail: bool, pos: nat, ctr: nat, h: nat, known: Marks)
    returns (hs: seq<nat>, marks: Marks)
    requires e.Switch? && Shaped(p, sc, e) && Numbered(known, ctr)
    ensures Balanced(GenSwitch(p, sc, e, tail, pos, ctr).All(), pos, h, h + 1, hs, marks) && More(known, marks)
    decreases e, 0
  {
    hide Balanced, Numbered, Gen, GenConds, GenBranches, WithBranches, BranchMarks, GenSwitch;
    var n, s := |e.conds|, GenSwitch(p, sc, e, tail, pos, ctr);
    SwitchParts(p, sc, e, tail, pos, ctr);
    var m0 := BeforeSwitch(known, s.end, ctr, n, h);
    var hs1, m1 := CondsBalanced(p, sc, e.conds, ctr, pos, ctr + n + 1, h, m0);
    UpTo(s.tests, pos, h, h, hs1, m1);
    var hs2, m2 := GenBalanced(p, sc, e.branches[n], tail, 1, pos + |s.tests.code|, s.tests.next, h, m1);
    UpTo(s.other, pos + |s.tests.code|, h, h + 1, hs2, m2);
    Lengths(s.other, pos + |s.tests.code|, h, h + 1, hs2, m2);
    BranchMarksKept(m0, m2, ctr, n, h);
    CatOk(s.tests, s.other, pos, h, h, h + 1, hs1, hs2, m1, m2);
    hs := hs1 + hs2[1..];
    var a := s.tests.Cat(s.other);
    var b := a.Emit([Jump(s.end)]);
    if n > 0 {
      EmitOk(a, pos, h, h + 1, h, hs, m2, Jump(s.end));
      var hs3;
      hs3, marks := BranchesBalanced(p, sc, e.branches, tail, ctr, s.end, s.at, s.other.next, h, m2);
      Lengths(s.rest, s.at, h, h + 1, hs3, marks);
      CatOk(b, s.rest, pos, h, h, h + 1, hs + [h], hs3, m2, marks);
      hs := hs + [h] + hs3[1..];
    } else {
      EmitOk(a, pos, h, h + 1, h + 1, hs, m2, Jump(s.end));
      NoBranches(p, sc, e.branches, tail, ctr, s.end, s.at, s.other.next);
      EmptyOk(s.at, h + 1, s.other.next, m2);
      CatOk(b, s.rest, pos, h, h + 1, h + 1, hs + [h + 1], [h + 1], m2, m2);
      hs, marks := hs + [h + 1] + [], m2;
      assert [h + 1][1..] == [];
    }
    DeclareLast(b.Cat(s.rest), pos, h, h + 1, hs, marks, s.end);
  }

  lemma SwitchParts(p: Program, sc: Scope, e: Expr, tail: bool, pos: nat, ctr: nat)
    requires e.Switch? && |e.branches| == |e.conds| + 1
    ensures var n, s := |e.conds|, GenSwitch(p, sc, e, tail, pos, ctr);
            && e.branches[n] in e.branches && s.end == Generated(SwitchEnd, ctr + n)
            && s.tests == GenConds(p, sc, e.conds, ctr, pos, ctr + n + 1)
            && s.other == Gen(p, sc, e.branches[n], tail, 1, pos + |s.tests.code|, s.tests.next)
            && s.at == pos + |s.tests.code| + |s.other.code| + 1
            && s.rest == GenBranches(p, sc, e.branches, tail, ctr, s.end, s.at, s.other.next)
            && s.endPos == s.at + |s.rest.code|
  {
    hide Gen, GenConds, GenBranches;
  }

  /** The labels that a switch reserves. */
  lemma BeforeSwitch(known: Marks, end: Label, ctr: nat, n: nat, h: nat) returns (marks: Marks)
    requires Numbered(known, ctr) && end == Generated(SwitchEnd, ctr + n)
    ensures end in marks && marks[end] == h + 1 && BranchMarks(marks, ctr, n, h)
    ensures Numbered(marks, ctr + n + 1) && More(known, marks)
  {
    hide WithBranches;
    marks := WithBranches(known, ctr, n, h)[end := h + 1];
  }

  lemma BranchMarksKept(a: Marks, b: Marks, first: nat, n: nat, h: nat)
    requires BranchMarks(a, first, n, h) && More(a, b)
    ensures BranchMarks(b, first, n, h)
  {}

  lemma NoBranches(p: Program, sc: Scope, bs: seq<Expr>, tail: bool, first: nat, end: Label, pos: nat, ctr: nat)
    requires |bs| <= 1
    ensures GenBranches(p, sc, bs, tail, first, end, pos, ctr) == Seg([], [], ctr)
  {}
}
