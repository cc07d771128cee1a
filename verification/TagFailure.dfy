/** An operand a pure function gets no code for cannot fail in the machine, whatever the program says. */
module TagFailure {
  import opened Lang
  import opened Machine
  import opened CodeGen
  import opened Effects
  import opened Skipping
  import opened Representation
  import opened Correctness
  import opened Failing

  /** Whenever the operand fails, so does the union made of it, but the code pushes the tag and goes on. */
  lemma DroppedFailureIsMissed(l: Place, fuel: nat, e: Expr, ctr: nat, x: Failure)
    requires l.Valid() && !l.sc.isAction && Skips(l.img.p, e) && |e.args| == 1
    requires Embedded(l.img.code, l.pos, GenAt(l, e, false, 1, ctr))
    requires Fails(l.img.p, l.sc, fuel, e.args[0], l.env, l.w) == Some(x)
    ensures Fails(l.img.p, l.sc, fuel, e, l.env, l.w) == Some(x)
    ensures Computes(l, false, l.pos + 1, l.env, l.w, l.stk, [WNull])
  {
    MakeUnionGen(l, e, false, ctr);
    hide Computes, Good, RepEnv, Embedded;
    Single(l, GenAt(l, e, false, 1, ctr), WNull);
  }

  // ----- A family of functions -----

  /** The union of `{1 / n; Tag()}`. */
  function Operand(n: int): Expr {
    Group([Expr.Call(2, [LitInt(1), LitInt(n)]), Expr.Call(0, [])])
  }

  function Body(n: int): Expr {
    Expr.Call(1, [Operand(n)])
  }

  /** Type 0 is a tag, type 1 a struct with two fields, type 2 their union. Function 3 is pure. */
  function Prog(n: int): Program {
    Program(
      [Struct([]), Struct([3, 3]), Union([0, 1]), Basic],
      [FuncDecl(FuncKind.MakeStruct(0), false), FuncDecl(FuncKind.MakeUnion(2, 0), false),
       FuncDecl(Binary(DivInt), false), FuncDecl(FuncKind.User(CONSTS, Body(n)), false)], [])
  }

  const CONSTS := ConstTable([], [], [], 0)
  const FUNC: FuncId := 3

  lemma TagIsNullable(n: int)
    ensures IsTagUnion(Prog(n), 1)
  {
    var types := Prog(n).types[2].members;
    assert types[0] == 0 && types[1] == 1;
    assert Prog(n).IsStruct(1) && |Prog(n).types[1].fields| >= 2 && 1 in types;
    assert StructIsTagType(Prog(n), 0) && 0 in types;
  }

  /** In the source language the function answers the tag, or divides by zero. */
  lemma Means(n: int, fuel: nat, w: World)
    ensures InvokeFails(Prog(n), fuel, FUNC, [], w) == if n == 0 then Some(Failure(DividedByZero, w)) else None
    ensures n != 0 ==> Invoke(Prog(n), fuel, FUNC, [], w) == Ok(VUnion(2, 0, VStruct(0, [])), map[], w)
  {
    var p, sc := Prog(n), FuncScope(Prog(n), FUNC);
    assert BindInputs(sc.consts.Inputs(), []) == map[];
    Divides(n, fuel, w);
    if n != 0 {
      OperandMeans(n, fuel, w);
      AllOfOne(p, sc, fuel, Operand(n), map[], w);
      NeverFailsOperand(n, fuel, w);
      hide Operand;
      assert EvalAll(p, sc, fuel, [Operand(n)], map[], w) == Ok([VStruct(0, [])], map[], w);
      assert HasType(p, VStruct(0, []), 0);
    } else {
      OperandFails(fuel, w);
      hide Operand;
      assert Body(n).args == [Operand(n)];
    }
  }

  lemma Divides(n: int, fuel: nat, w: World)
    ensures var p, sc, e := Prog(n), FuncScope(Prog(n), FUNC), Expr.Call(2, [LitInt(1), LitInt(n)]);
            && (n == 0 ==> Fails(p, sc, fuel, e, map[], w) == Some(Failure(DividedByZero, w)))
            && (n != 0 ==> Eval(p, sc, fuel, e, map[], w) == Ok(VInt(TruncDiv(1, n)), map[], w)
                           && Fails(p, sc, fuel, e, map[], w).None?)
  {
    var p, sc, args := Prog(n), FuncScope(Prog(n), FUNC), [LitInt(1), LitInt(n)];
    AllOfTwo(p, sc, fuel, LitInt(1), LitInt(n), map[], w);
    assert EvalAll(p, sc, fuel, args, map[], w) == Ok([VInt(1), VInt(n)], map[], w);
    assert args[1..] == [LitInt(n)] && args[1..][1..] == [];
    assert FailsAll(p, sc, fuel, args[1..], map[], w).None?;
    assert FailsAll(p, sc, fuel, args, map[], w).None?;
  }

  lemma OperandMeans(n: int, fuel: nat, w: World)
    requires n != 0
    ensures Eval(Prog(n), FuncScope(Prog(n), FUNC), fuel, Operand(n), map[], w) == Ok(VStruct(0, []), map[], w)
  {
    var p, sc := Prog(n), FuncScope(Prog(n), FUNC);
    var div, tag := Expr.Call(2, [LitInt(1), LitInt(n)]), Expr.Call(0, []);
    Divides(n, fuel, w);
    assert EvalAll(p, sc, fuel, [], map[], w) == Ok([], map[], w);
    assert Eval(p, sc, fuel, tag, map[], w) == Ok(VStruct(0, []), map[], w);
    AllOfTwo(p, sc, fuel, div, tag, map[], w);
  }

  lemma NeverFailsOperand(n: int, fuel: nat, w: World)
    requires n != 0
    ensures Fails(Prog(n), FuncScope(Prog(n), FUNC), fuel, Operand(n), map[], w).None?
    ensures FailsAll(Prog(n), FuncScope(Prog(n), FUNC), fuel, [Operand(n)], map[], w).None?
  {
    var p, sc := Prog(n), FuncScope(Prog(n), FUNC);
    var es := [Expr.Call(2, [LitInt(1), LitInt(n)]), Expr.Call(0, [])];
    Divides(n, fuel, w);
    assert es[1..] == [Expr.Call(0, [])] && es[1..][1..] == [] && [Operand(n)][1..] == [];
    assert FailsAll(p, sc, fuel, [], map[], w).None?;
    assert Fails(p, sc, fuel, es[1], map[], w).None?;
    assert FailsAll(p, sc, fuel, es[1..], map[], w).None?;
    assert FailsAll(p, sc, fuel, es, map[], w).None?;
  }

  lemma OperandFails(fuel: nat, w: World)
    ensures Fails(Prog(0), FuncScope(Prog(0), FUNC), fuel, Operand(0), map[], w) == Some(Failure(DividedByZero, w))
    ensures FailsAll(Prog(0), FuncScope(Prog(0), FUNC), fuel, [Operand(0)], map[], w) == Some(Failure(DividedByZero, w))
  {
    Divides(0, fuel, w);
  }

  lemma CodeOf(n: int, pos: nat, ctr: nat)
    ensures GenFunc(Prog(n), FUNC, pos, ctr).code == [MakeNullStruct, Ret]
  {
    var p, sc := Prog(n), FuncScope(Prog(n), FUNC);
    TagIsNullable(n);
    hide UnionIsNullableStruct, StructIsTagType;
    assert Gen(p, sc, Body(n), true, 1, pos, ctr) == GenUnion(p, sc, 2, 0, [Operand(n)], true, pos, ctr);
    assert Gen(p, sc, Body(n), true, 1, pos, ctr) == Seg([MakeNullStruct], [], ctr);
    assert ReserveConsts(CONSTS) == [];
  }

  /** The code answers the tag whatever n is. */
  lemma CodeAnswersTag(n: int, c: Code, pos: nat, ctr: nat, stk: seq<Word>, home: nat, w: World)
    requires Embedded(c, pos, GenFunc(Prog(n), FUNC, pos, ctr)) && HasCaller(stk, home) && |stk| == home
    ensures Reaches(c, Running(pos, stk, home, w), Returned(stk, home, WNull, w))
  {
    CodeOf(n, pos, ctr);
    var code := GenFunc(Prog(n), FUNC, pos, ctr).code;
    hide GenFunc, Prog;
    assert c.instrs[pos] == code[0] by { assert c.instrs[pos..pos + 2][0] == code[0]; }
    assert c.instrs[pos + 1] == code[1] by { assert c.instrs[pos..pos + 2][1] == code[1]; }
    hide Reaches;
    var s0, s1 := Running(pos, stk, home, w), Running(pos + 1, stk + [WNull], home, w);
    ReachRefl(c, s0);
    ReachStep(c, s0, s0, code[0]);
    assert s1.stack[..home - 2] == stk[..home - 2];
    assert Exec(c, s1, Ret) == Returned(stk, home, WNull, w);
    ReachStep(c, s0, s1, code[1]);
  }

  /** So the code is right exactly when n is not 0: then the function has a value, which the answer
      represents, and otherwise it fails while the code answers. The condition under which all failures are
      kept says no for each n. */
  lemma RightIffNotZero(n: int, img: Image, fuel: nat, stk: seq<Word>, home: nat, w: World)
    requires img.p == Prog(n) && Linked(img, FUNC) && HasCaller(stk, home) && |stk| == home
    ensures !FuncSkipsQuietly(Prog(n), FUNC)
    ensures Reaches(img.code, Running(img.code.labels[FuncLabel(FUNC)], stk, home, w), Returned(stk, home, WNull, w))
    ensures var r := Invoke(Prog(n), fuel, FUNC, [], w);
            (r.Ok? && r.world == w && Rep(img.p, img.code.labels, WNull, r.val)) <==> n != 0
    ensures InvokeFails(Prog(n), fuel, FUNC, [], w).Some? <==> n == 0
  {
    Means(n, fuel, w);
    if n == 0 { InvokeFailsIsErr(Prog(n), fuel, FUNC, [], w); }
    CodeAnswersTag(n, img.code, img.code.labels[FuncLabel(FUNC)], img.ctrs[FUNC], stk, home, w);
    TagIsNullable(n);
    hide UnionIsNullableStruct, StructIsTagType, Reaches, Returned, InvokeFails, Invoke;
    MayFail(n);
  }

  lemma MayFail(n: int)
    ensures !FuncSkipsQuietly(Prog(n), FUNC)
  {
    TagIsNullable(n);
    assert !NeverFails(Prog(n), Expr.Call(2, [LitInt(1), LitInt(n)]));
    assert !AllNeverFail(Prog(n), [Expr.Call(2, [LitInt(1), LitInt(n)]), Expr.Call(0, [])]);
    assert !AllNeverFail(Prog(n), [Operand(n)]);
  }
}
