/** Making a nullable union out of its tag drops the operand's code inside pure functions. Here is a
    family of functions that this breaks, and what makes it harmless. */
module TagOperand {
  import opened Lang
  import opened Machine
  import opened CodeGen
  import opened Effects
  import opened Skipping
  import opened Representation
  import Trees

  /** The union of `{c = n; Tag()}`. */
  function Operand(n: int): Expr {
    Group([Assign(0, LitInt(n)), Expr.Call(0, [])])
  }

  /** `Union({c = n; Tag()}); c` */
  function Body(n: int): Expr {
    Group([Expr.Call(1, [Operand(n)]), ConstRef(0)])
  }

  /** Type 0 is a tag, type 1 a struct with two fields, type 2 their union. Function 2 is pure. */
  function Prog(n: int): Program {
    Program(
      [Struct([]), Struct([3, 3]), Union([0, 1]), Basic],
      [FuncDecl(FuncKind.MakeStruct(0), false), FuncDecl(FuncKind.MakeUnion(2, 0), false),
       FuncDecl(FuncKind.User(CONSTS, Body(n)), false)], [])
  }

  const CONSTS := ConstTable([], [], [0], 1)
  const FUNC: FuncId := 2

  lemma TagIsNullable(n: int)
    ensures IsTagUnion(Prog(n), 1)
  {
    var types := Prog(n).types[2].members;
    assert types[0] == 0 && types[1] == 1;
    assert Prog(n).IsStruct(1) && |Prog(n).types[1].fields| >= 2 && 1 in types;
    assert StructIsTagType(Prog(n), 0) && 0 in types;
  }

  /** In the source language the function answers n. */
  lemma AnswersN(n: int, fuel: nat, w: World)
    ensures Invoke(Prog(n), fuel, FUNC, [], w) == Ok(VInt(n), map[0 := VInt(n)], w)
  {
    var p, sc, env: Env := Prog(n), FuncScope(Prog(n), FUNC), map[0 := VInt(n)];
    var call := Expr.Call(1, [Operand(n)]);
    assert BindInputs(sc.consts.Inputs(), []) == map[];
    OperandMeans(n, fuel, w);
    assert Eval(p, sc, fuel, ConstRef(0), env, w) == Ok(VInt(n), env, w);
    AllOfTwo(p, sc, fuel, call, ConstRef(0), map[], w);
  }

  lemma OperandMeans(n: int, fuel: nat, w: World)
    ensures Eval(Prog(n), FuncScope(Prog(n), FUNC), fuel, Expr.Call(1, [Operand(n)]), map[], w)
         == Ok(VUnion(2, 0, VStruct(0, [])), map[0 := VInt(n)], w)
  {
    var p, sc, env: Env := Prog(n), FuncScope(Prog(n), FUNC), map[0 := VInt(n)];
    TagMeans(n, fuel, w);
    AllOfOne(p, sc, fuel, Operand(n), map[], w);
    hide Operand;
    assert EvalAll(p, sc, fuel, [Operand(n)], map[], w) == Ok([VStruct(0, [])], env, w);
    assert HasType(p, VStruct(0, []), 0);
  }

  lemma TagMeans(n: int, fuel: nat, w: World)
    ensures Eval(Prog(n), FuncScope(Prog(n), FUNC), fuel, Operand(n), map[], w) == Ok(VStruct(0, []), map[0 := VInt(n)], w)
  {
    var p, sc, env: Env := Prog(n), FuncScope(Prog(n), FUNC), map[0 := VInt(n)];
    assert sc.consts.Has(0) by { assert sc.consts.All()[0] == 0; }
    assert Eval(p, sc, fuel, Assign(0, LitInt(n)), map[], w) == Ok(VInt(n), env, w);
    var tag := Expr.Call(0, []);
    assert EvalAll(p, sc, fuel, [], env, w) == Ok([], env, w);
    assert Eval(p, sc, fuel, tag, env, w) == Ok(VStruct(0, []), env, w);
    AllOfTwo(p, sc, fuel, Assign(0, LitInt(n)), tag, map[], w);
  }

  lemma BodyCode(n: int, pos: nat, ctr: nat)
    ensures Gen(Prog(n), FuncScope(Prog(n), FUNC), Body(n), true, 1, pos, ctr).code == [MakeNullStruct, Instr.Pop, StackLoad(0)]
  {
    var p, sc, es := Prog(n), FuncScope(Prog(n), FUNC), [Expr.Call(1, [Operand(n)]), ConstRef(0)];
    assert es[1..] == [ConstRef(0)];
    assert ConstOffset(sc.consts, 0) == 0 by { assert sc.consts.All() == [0]; }
    assert Gen(p, sc, Body(n), true, 1, pos, ctr) == GenGroup(p, sc, es, true, pos, ctr);
    assert Gen(p, sc, ConstRef(0), true, 1, pos + 2, ctr) == Seg([StackLoad(0)], [], ctr);
    hide Gen, GenGroup, ElementSeg, ConstOffset;
    DroppedCode(n, pos, ctr);
    GroupGen(p, sc, es, true, pos, ctr);
    GroupEnds(p, sc, [ConstRef(0)], true, pos + 2, ctr);
  }

  lemma CodeOf(n: int, pos: nat, ctr: nat)
    ensures GenFunc(Prog(n), FUNC, pos, ctr).code == [StackAlloc(1), MakeNullStruct, Instr.Pop, StackLoad(0), Ret]
  {
    BodyCode(n, pos + 1, ctr);
    hide Gen;
    assert ReserveConsts(CONSTS) == [StackAlloc(1)];
  }

  lemma DroppedCode(n: int, pos: nat, ctr: nat)
    ensures ElementSeg(Prog(n), FuncScope(Prog(n), FUNC), [Expr.Call(1, [Operand(n)]), ConstRef(0)], pos, ctr)
         == Seg([MakeNullStruct, Instr.Pop], [], ctr)
  {
    var p, sc, call := Prog(n), FuncScope(Prog(n), FUNC), Expr.Call(1, [Operand(n)]);
    TagIsNullable(n);
    hide UnionIsNullableStruct, StructIsTagType;
    assert Gen(p, sc, call, false, 0, pos, ctr) == GenUnion(p, sc, 2, 0, [Operand(n)], false, pos, ctr);
    assert Gen(p, sc, call, false, 0, pos, ctr) == Seg([MakeNullStruct], [], ctr);
    assert Repeat(Instr.Pop, 1) == [Instr.Pop];
  }

  /** The generated code never stores n: whatever n is, it answers the zero its slot starts with. */
  lemma CodeAnswersZero(n: int, c: Code, pos: nat, ctr: nat, stk: seq<Word>, home: nat, w: World)
    requires Embedded(c, pos, GenFunc(Prog(n), FUNC, pos, ctr)) && HasCaller(stk, home) && |stk| == home
    ensures Reaches(c, Running(pos, stk, home, w), Returned(stk, home, WInt(0), w))
  {
    CodeOf(n, pos, ctr);
    var code := GenFunc(Prog(n), FUNC, pos, ctr).code;
    hide GenFunc, Prog;
    assert Has(c, pos, code) by {
      forall i | 0 <= i < 5 ensures c.instrs[pos + i] == code[i] { assert c.instrs[pos..pos + 5][i] == code[i]; }
    }
    var s0, s2 := Running(pos, stk, home, w), Running(pos + 2, stk + [WInt(0), WNull], home, w);
    FirstHalf(c, pos, code, stk, home, w);
    SecondHalf(c, pos, code, stk, home, w);
    ReachTrans(c, s0, s2, Returned(stk, home, WInt(0), w));
  }

  lemma FirstHalf(c: Code, pos: nat, code: seq<Instr>, stk: seq<Word>, home: nat, w: World)
    requires code == [StackAlloc(1), MakeNullStruct, Instr.Pop, StackLoad(0), Ret] && Has(c, pos, code)
    ensures Reaches(c, Running(pos, stk, home, w), Running(pos + 2, stk + [WInt(0), WNull], home, w))
  {
    hide Reaches;
    var s0, s1 := Running(pos, stk, home, w), Running(pos + 1, stk + [WInt(0)], home, w);
    ReachRefl(c, s0);
    assert stk + seq(1, _ => WInt(0)) == stk + [WInt(0)];
    assert c.instrs[pos + 0] == code[0] && c.instrs[pos + 1] == code[1];
    ReachStep(c, s0, s0, code[0]);
    assert stk + [WInt(0)] + [WNull] == stk + [WInt(0), WNull];
    ReachStep(c, s0, s1, code[1]);
  }

  lemma SecondHalf(c: Code, pos: nat, code: seq<Instr>, stk: seq<Word>, home: nat, w: World)
    requires code == [StackAlloc(1), MakeNullStruct, Instr.Pop, StackLoad(0), Ret] && Has(c, pos, code)
    requires HasCaller(stk, home) && |stk| == home
    ensures Reaches(c, Running(pos + 2, stk + [WInt(0), WNull], home, w), Returned(stk, home, WInt(0), w))
  {
    hide Reaches;
    var s2, s3 := Running(pos + 2, stk + [WInt(0), WNull], home, w), Running(pos + 3, stk + [WInt(0)], home, w);
    var s4 := Running(pos + 4, stk + [WInt(0), WInt(0)], home, w);
    assert c.instrs[pos + 2] == code[2] && c.instrs[pos + 3] == code[3] && c.instrs[pos + 4] == code[4];
    ReachRefl(c, s2);
    assert Drop(s2.stack, 1) == s3.stack && s3.stack + [WInt(0)] == s4.stack;
    ReachStep(c, s2, s2, code[2]);
    ReachStep(c, s2, s3, code[3]);
    assert s4.stack[..home - 2] == stk[..home - 2];
    assert Exec(c, s4, Ret) == Returned(stk, home, WInt(0), w);
    ReachStep(c, s2, s4, code[4]);
  }

  /** So the code is right exactly when n is 0. The condition under which every program is right says
      no for each n. */
  lemma RightIffZero(n: int, img: Image, fuel: nat, stk: seq<Word>, home: nat, w: World)
    requires img.p == Prog(n) && Linked(img, FUNC) && HasCaller(stk, home) && |stk| == home
    ensures !FuncSkipsSafely(Prog(n), FUNC) && Invoke(Prog(n), fuel, FUNC, [], w).Ok?
    ensures exists x ::
              && Reaches(img.code, Running(img.code.labels[FuncLabel(FUNC)], stk, home, w), Returned(stk, home, x, w))
              && (Rep(img.p, img.code.labels, x, Invoke(Prog(n), fuel, FUNC, [], w).val) <==> n == 0)
  {
    AnswersN(n, fuel, w);
    CodeAnswersZero(n, img.code, img.code.labels[FuncLabel(FUNC)], img.ctrs[FUNC], stk, home, w);
    ReadsTheDropped(n);
    assert Rep(img.p, img.code.labels, WInt(0), VInt(n)) <==> n == 0;
  }

  lemma ReadsTheDropped(n: int)
    ensures !FuncSkipsSafely(Prog(n), FUNC)
  {
    var p, call := Prog(n), Expr.Call(1, [Operand(n)]);
    TagIsNullable(n);
    var inner := [Assign(0, LitInt(n)), Expr.Call(0, [])];
    assert 0 in Trees.Assigned(inner[0]) && 0 in Trees.AssignedAll(inner);
    assert Trees.Kids(Operand(n)) == inner && 0 in Trees.Assigned(Operand(n));
    assert Trees.Kids(call) == [Operand(n)] && 0 in Trees.AssignedAll([Operand(n)]);
    assert 0 in SkippedDecls(p, call);
    var es := [call, ConstRef(0)];
    assert Trees.Kids(Body(n)) == es && 0 in SkippedDeclsAll(p, es);
    assert es[1..] == [ConstRef(0)] && 0 in ReadOutside(p, [], ConstRef(0));
    assert 0 in ReadOutsideAll(p, [], es[1..]);
    assert 0 in ReadOutsideAll(p, [], es) && 0 in ReadOutside(p, [], Body(n));
    assert 0 in SkippedDecls(p, Body(n));
  }

  // ----- Frames -----

  /** The frame at home holds a representation of every constant. */
  ghost predicate Holds(img: Image, consts: ConstTable, stk: seq<Word>, home: nat, env: Env) {
    && home + |consts.All()| <= |stk|
    && (forall id | id in env ::
          consts.Has(id) && Rep(img.p, img.code.labels, stk[home + ConstOffset(consts, id)], env[id]))
  }

  /** A value that every word represents. */
  predicate Weightless(v: Value)
    decreases v
  {
    v.VStruct? && (v.fields == [] || (|v.fields| == 1 && Weightless(v.fields[0])))
  }

  lemma {:induction false} WeightlessMeansAnyWord(p: Program, labels: map<Label, nat>, v: Value)
    ensures Weightless(v) ==> forall x :: Rep(p, labels, x, v)
    ensures !Weightless(v) ==> exists x :: !Rep(p, labels, x, v)
    decreases v
  {
    if v.VStruct? && |v.fields| == 1 {
      WeightlessMeansAnyWord(p, labels, v.fields[0]);
      forall x ensures Rep(p, labels, x, v) == Rep(p, labels, x, v.fields[0]) {}
      if !Weightless(v) {
        var x :| !Rep(p, labels, x, v.fields[0]);
        assert !Rep(p, labels, x, v);
      }
    } else if !Weightless(v) {
      assert !Rep(p, labels, WNull, v) || !Rep(p, labels, WInt(0), v);
    }
  }

  /** Leaving out code that would have taken env to env' keeps every frame right, whatever the slots
      of the new constants hold, exactly when all new constants have weightless values. */
  lemma FrameStaysRightIff(img: Image, consts: ConstTable, home: nat, stk: seq<Word>, env: Env, env': Env)
    requires Holds(img, consts, stk, home, env)
    requires forall id | id in env' :: consts.Has(id)
    requires forall id | id in env :: id in env' && env'[id] == env[id]
    ensures (forall s: seq<Word> | Holds(img, consts, s, home, env) :: Holds(img, consts, s, home, env'))
       <==> (forall id | id in env' && id !in env :: Weightless(env'[id]))
  {
    hide IndexOf, UnionDiscriminant, UnionIsNullableStruct;
    var labels := img.code.labels;
    forall id | id in env' ensures Weightless(env'[id]) <==> forall x :: Rep(img.p, labels, x, env'[id]) {
      WeightlessMeansAnyWord(img.p, labels, env'[id]);
    }
    if id :| id in env' && id !in env && !Weightless(env'[id]) {
      WeightlessMeansAnyWord(img.p, labels, env'[id]);
      var x :| !Rep(img.p, labels, x, env'[id]);
      var o := home + ConstOffset(consts, id);
      var s := stk[o := x];
      forall y | y in env ensures ConstOffset(consts, y) != ConstOffset(consts, id) {}
      assert Holds(img, consts, s, home, env) && !Holds(img, consts, s, home, env');
    }
  }
}
