/** Whenever the evaluation of an expression fails, its code stops with that failure. */
module FailingCode {
  import opened Lang
  import opened Machine
  import opened CodeGen
  import opened Purity
  import opened Representation
  import opened Skipping
  import opened Correctness
  import opened Failing

  /** The machine stops with failure x. */
  ghost predicate Stops(l: Place, x: Failure) {
    Reaches(l.img.code, l.State(), Failed(x))
  }

  ghost function FailsAt(l: Place, fuel: nat, e: Expr): Option<Failure> {
    Fails(l.img.p, l.sc, fuel, e, l.env, l.w)
  }

  ghost function FailsAllAt(l: Place, fuel: nat, es: seq<Expr>): Option<Failure> {
    FailsAll(l.img.p, l.sc, fuel, es, l.env, l.w)
  }

  /** No operand without code is missed: neither what it declares nor its failure. */
  predicate Skippable(p: Program, sc: Scope, e: Expr) {
    sc.isAction || (SkipsSafely(p, sc, e) && SkipsQuietly(p, e))
  }

  predicate AllSkippable(p: Program, sc: Scope, es: seq<Expr>) {
    sc.isAction || (AllSkipSafely(p, sc, es) && AllSkipQuietly(p, es))
  }

  /** A running machine in a program all of whose functions are like that. */
  ghost predicate IsAt(l: Place) {
    l.Valid() && SkipsQuietlyAnywhere(l.img.p)
  }

  /** The code of e stands here and e fails with x. */
  ghost predicate Doomed(l: Place, fuel: nat, e: Expr, tail: bool, req: nat, ctr: nat, x: Failure) {
    && IsAt(l) && Embedded(l.img.code, l.pos, GenAt(l, e, tail, req, ctr)) && (tail ==> HasCaller(l.stk, l.home))
    && Skippable(l.img.p, l.sc, e) && FailsAt(l, fuel, e) == Some(x)
  }

  ghost predicate AllDoomed(l: Place, fuel: nat, es: seq<Expr>, ctr: nat, x: Failure) {
    && IsAt(l) && Embedded(l.img.code, l.pos, GenAll(l.img.p, l.sc, es, l.pos, ctr))
    && AllSkippable(l.img.p, l.sc, es) && FailsAllAt(l, fuel, es) == Some(x)
  }

  // ----- Small steps -----

  /** What comes first runs to its end, and what follows stops. */
  lemma ThenStops(l: Place, l2: Place, env': Env, w': World, stk': seq<Word>, xs: seq<Word>, x: Failure)
    requires Computes(l, false, l2.pos, env', w', stk', xs) && Stops(l2, x)
    requires l2 == l.(pos := l2.pos, stk := stk' + xs, env := env', w := w')
    ensures Stops(l, x)
  {
    hide Reaches, RepEnv;
    ReachTrans(l.img.code, l.State(), l2.State(), Failed(x));
  }

  /** The next instruction stops. */
  lemma StopsNext(l: Place, at: nat, env': Env, w': World, stk': seq<Word>, xs: seq<Word>, i: Instr, x: Failure)
    requires Computes(l, false, at, env', w', stk', xs)
    requires at < |l.img.code.instrs| && l.img.code.instrs[at] == i
    requires Exec(l.img.code, Running(at, stk' + xs, l.home, w'), i) == Failed(x)
    ensures Stops(l, x)
  {
    hide RepEnv, Exec;
    ReachStep(l.img.code, l.State(), Running(at, stk' + xs, l.home, w'), i);
  }

  /** The place above the words of what came first. */
  lemma Above(l: Place, at: nat, env': Env, w': World, stk': seq<Word>, xs: seq<Word>) returns (l2: Place)
    requires IsAt(l) && Computes(l, false, at, env', w', stk', xs)
    ensures l2 == l.(pos := at, stk := stk' + xs, env := env', w := w') && IsAt(l2)
  {
    hide Computes, Good, RepEnv;
    l2 := OnTop(l, at, env', w', stk', xs);
  }

  // ----- The main theorem -----

  /** Whenever the evaluation of e fails, its code, run on any stack whose frame represents the environment,
      stops with the same failure after the same actions. */
  lemma {:induction false} FailureStops(
    l: Place, fuel: nat, e: Expr, tail: bool, req: nat, ctr: nat, x: Failure)
    requires Doomed(l, fuel, e, tail, req, ctr, x)
    ensures Stops(l, x)
    decreases fuel, 0, e, 3
  {
    hide Stops, IsAt, Embedded, Gen, Fails, Skippable, HasCaller;
    match e
    case FailNode => StopsAtNode(l, fuel, e, tail, req, ctr, x);
    case Group(es) =>
      GroupIs(l, fuel, e, tail, req, ctr, x);
      GroupStops(l, fuel, es, tail, ctr, x);
    case Switch(_, _) => SwitchStops(l, fuel, e, tail, req, ctr, x);
    case Call(_, _) => CallStops(l, fuel, e, tail, req, ctr, x);
    case CallDyn(_, _, _) => DynStops(l, fuel, e, tail, req, ctr, x);
    case CallSelf(_) => SelfStops(l, fuel, e, tail, req, ctr, x);
    case Closure(_, args) =>
      ClosureDoomed(l, fuel, e, tail, req, ctr, x);
      AllStops(l, fuel, args, ctr, x);
    case _ =>
      var e2 := OperandDoomed(l, fuel, e, tail, req, ctr, x);
      FailureStops(l, fuel, e2, false, 1, ctr, x);
  }

  lemma StopsAtNode(l: Place, fuel: nat, e: Expr, tail: bool, req: nat, ctr: nat, x: Failure)
    requires e.FailNode? && Doomed(l, fuel, e, tail, req, ctr, x)
    ensures Stops(l, x)
  {
    assert l.img.code.instrs[l.pos..l.pos + 1][0] == Instr.Fail;
    ReachRefl(l.img.code, l.State());
    ReachStep(l.img.code, l.State(), l.State(), Instr.Fail);
  }

  /** The only operand of an expression without calls fails. */
  lemma OperandDoomed(l: Place, fuel: nat, e: Expr, tail: bool, req: nat, ctr: nat, x: Failure) returns (e2: Expr)
    requires Doomed(l, fuel, e, tail, req, ctr, x)
    requires !e.FailNode? && !e.Group? && !e.Switch? && !e.Call? && !e.CallDyn? && !e.CallSelf? && !e.Closure?
    ensures e2 < e && Doomed(l, fuel, e2, false, 1, ctr, x)
  {
    hide Embedded, IsAt, HasCaller, UnionTest, FieldInstrs;
    match e
    case Assign(_, init) =>
      e2 := init;
      EmbeddedEmit(l.img.code, l.pos, GenAt(l, init, false, 1, ctr), (if req > 0 then [Dup] else []) + [StackStore(ConstOffset(l.sc.consts, e.id))]);
    case Field(s, lhs, index) =>
      e2 := lhs;
      EmbeddedEmit(l.img.code, l.pos, GenAt(l, lhs, false, 1, ctr), FieldInstrs(l.img.p, s, index));
    case UnionCheck(u, lhs, t) =>
      e2 := lhs;
      EmbeddedEmit(l.img.code, l.pos, GenAt(l, lhs, false, 1, ctr), UnionTest(l.img.p, u, t));
    case UnionGet(_, lhs, _, _) =>
      e2 := lhs;
      GetPlaced(l, e, tail, req, ctr);
    case _ =>
  }

  lemma GetPlaced(l: Place, e: Expr, tail: bool, req: nat, ctr: nat)
    requires e.UnionGet? && Embedded(l.img.code, l.pos, GenAt(l, e, tail, req, ctr))
    ensures Embedded(l.img.code, l.pos, GenAt(l, e.lhs, false, 1, ctr))
  {
    hide GetMember, UnionIsNullableStruct, GenSwitch;
    var s1, slot := GenAt(l, e.lhs, false, 1, ctr), ConstOffset(l.sc.consts, e.id);
    var test := UnionTest(l.img.p, e.utype, e.target);
    hide Embedded, UnionTest, ConstOffset, GetArms;
    if UnionIsNullableStruct(l.img.p, e.utype) {
      EmbeddedEmit(l.img.code, l.pos, s1, (if StructIsTagType(l.img.p, e.target) then [] else [Dup, StackStore(slot)]) + test);
    } else {
      MemberPlaced(l.img.code, l.pos, s1, test, slot);
      EmbeddedEmit(l.img.code, l.pos, s1, [Dup] + test + GetArms(Generated(UnionTypeEqual, s1.next), Generated(UnionGetEnd, s1.next + 1), slot));
    }
  }

  // ----- Operands -----

  lemma ClosureDoomed(l: Place, fuel: nat, e: Expr, tail: bool, req: nat, ctr: nat, x: Failure)
    requires e.Closure? && Doomed(l, fuel, e, tail, req, ctr, x)
    ensures AllDoomed(l, fuel, e.boundArgs, ctr, x)
  {
    hide Embedded, IsAt, HasCaller;
    EmbeddedEmit(l.img.code, l.pos, GenAll(l.img.p, l.sc, e.boundArgs, l.pos, ctr),
                 [LoadLitIp(FuncLabel(e.func)), Instr.MakeStruct(Narrow8(|e.boundArgs| + 1))]);
  }

  lemma {:induction false} AllStops(l: Place, fuel: nat, es: seq<Expr>, ctr: nat, x: Failure)
    requires AllDoomed(l, fuel, es, ctr, x)
    ensures Stops(l, x)
    decreases fuel, 0, es, 3
  {
    hide Stops, Computes, Embedded, Gen, GenAll, Eval, Fails, FailsAll, Good, RepEnv, ScopeOk, SkipsSafely,
         AllSkipSafely, SkipsQuietly, AllSkipQuietly, SkipsQuietlyAnywhere, HasCaller;
    AllUnfold(l, fuel, es, ctr, x);
    var s1, r := GenAt(l, es[0], false, 1, ctr), EvalAt(l, fuel, es[0]);
    if FailsAt(l, fuel, es[0]).Some? {
      FailureStops(l, fuel, es[0], false, 1, ctr, x);
    } else {
      var stk1, y := Correct(l, fuel, es[0], false, 1, ctr, 0);
      var l2 := Above(l, l.pos + |s1.code|, r.env, r.world, stk1, [y]);
      AllStops(l2, fuel, es[1..], s1.next, x);
      ThenStops(l, l2, r.env, r.world, stk1, [y], x);
    }
  }

  /** The first operand fails, or it is evaluated and one of the others does. */
  lemma AllUnfold(l: Place, fuel: nat, es: seq<Expr>, ctr: nat, x: Failure)
    requires AllDoomed(l, fuel, es, ctr, x)
    ensures es != [] && Skippable(l.img.p, l.sc, es[0]) && AllSkippable(l.img.p, l.sc, es[1..])
    ensures var s1, r := GenAt(l, es[0], false, 1, ctr), EvalAt(l, fuel, es[0]);
            && Embedded(l.img.code, l.pos, s1)
            && Embedded(l.img.code, l.pos + |s1.code|, GenAll(l.img.p, l.sc, es[1..], l.pos + |s1.code|, s1.next))
            && if FailsAt(l, fuel, es[0]).Some? then FailsAt(l, fuel, es[0]) == Some(x)
               else r.Ok? && FailsAll(l.img.p, l.sc, fuel, es[1..], r.env, r.world) == Some(x)
  {
    hide Embedded, Gen, Eval, Fails, IsAt, SkipsSafely, SkipsQuietly;
    AllGen(l.img.p, l.sc, es, l.pos, ctr);
    var s1 := GenAt(l, es[0], false, 1, ctr);
    EmbeddedCat(l.img.code, l.pos, s1, GenAll(l.img.p, l.sc, es[1..], l.pos + |s1.code|, s1.next));
  }

  // ----- Groups -----

  ghost predicate GroupDoomed(l: Place, fuel: nat, es: seq<Expr>, tail: bool, ctr: nat, x: Failure) {
    && IsAt(l) && Embedded(l.img.code, l.pos, GenGroup(l.img.p, l.sc, es, tail, l.pos, ctr))
    && (tail ==> HasCaller(l.stk, l.home))
    && AllSkippable(l.img.p, l.sc, es) && FailsAllAt(l, fuel, es) == Some(x)
  }

  lemma GroupIs(l: Place, fuel: nat, e: Expr, tail: bool, req: nat, ctr: nat, x: Failure)
    requires e.Group? && Doomed(l, fuel, e, tail, req, ctr, x)
    ensures GroupDoomed(l, fuel, e.exprs, tail, ctr, x)
  {
    hide Embedded, IsAt, HasCaller, GenGroup, FailsAll;
  }

  lemma {:induction false} GroupStops(l: Place, fuel: nat, es: seq<Expr>, tail: bool, ctr: nat, x: Failure)
    requires GroupDoomed(l, fuel, es, tail, ctr, x)
    ensures Stops(l, x)
    decreases fuel, 0, es, 3
  {
    hide Stops, Computes, Embedded, Gen, GenGroup, Eval, Fails, FailsAll, Good, RepEnv, ScopeOk, SkipsSafely,
         AllSkipSafely, SkipsQuietly, AllSkipQuietly, SkipsQuietlyAnywhere, HasCaller;
    GroupUnfold(l, fuel, es, tail, ctr, x);
    if FailsAt(l, fuel, es[0]).Some? {
      FailureStops(l, fuel, es[0], tail && |es| == 1, if |es| == 1 then 1 else 0, ctr, x);
    } else {
      var r, s1 := EvalAt(l, fuel, es[0]), ElementSeg(l.img.p, l.sc, es, l.pos, ctr);
      var stk1 := GroupFirst(l, fuel, es[0], ctr);
      var l2 := Above(l, l.pos + |s1.code|, r.env, r.world, stk1, []);
      if tail { CallerKept(l, l2.pos, r.env, r.world, stk1); }
      GroupStops(l2, fuel, es[1..], tail, s1.next, x);
      ThenStops(l, l2, r.env, r.world, stk1, [], x);
    }
  }

  lemma CallerKept(l: Place, at: nat, env': Env, w': World, stk': seq<Word>)
    requires Computes(l, false, at, env', w', stk', []) && HasCaller(l.stk, l.home)
    ensures HasCaller(stk' + [], l.home)
  {
    assert stk' + [] == stk';
    FrameReturned(l.stk, stk', l.home, |l.sc.consts.All()|, WNull, w');
  }

  lemma GroupUnfold(l: Place, fuel: nat, es: seq<Expr>, tail: bool, ctr: nat, x: Failure)
    requires GroupDoomed(l, fuel, es, tail, ctr, x)
    ensures es != [] && Skippable(l.img.p, l.sc, es[0]) && AllSkippable(l.img.p, l.sc, es[1..])
    ensures var r := EvalAt(l, fuel, es[0]);
            if FailsAt(l, fuel, es[0]).Some? then FailsAt(l, fuel, es[0]) == Some(x)
            else |es| > 1 && r.Ok? && FailsAll(l.img.p, l.sc, fuel, es[1..], r.env, r.world) == Some(x)
    ensures Embedded(l.img.code, l.pos, GenAt(l, es[0], tail && |es| == 1, if |es| == 1 then 1 else 0, ctr))
    ensures |es| > 1 ==>
              var s1 := ElementSeg(l.img.p, l.sc, es, l.pos, ctr);
              && s1 == GenAt(l, es[0], false, 0, ctr).Emit(Repeat(Instr.Pop, Produced(es[0], 0)))
              && |s1.code| == |GenAt(l, es[0], false, 0, ctr).code| + Produced(es[0], 0)
              && Embedded(l.img.code, l.pos, s1)
              && Embedded(l.img.code, l.pos + |s1.code|, GenGroup(l.img.p, l.sc, es[1..], tail, l.pos + |s1.code|, s1.next))
  {
    hide Embedded, Gen, GenGroup, Eval, Fails, IsAt, SkipsSafely, SkipsQuietly, HasCaller;
    GroupEnds(l.img.p, l.sc, es, tail, l.pos, ctr);
    OneFails(l, fuel, es);
    if |es| > 1 {
      GroupGen(l.img.p, l.sc, es, tail, l.pos, ctr);
      var s1 := ElementSeg(l.img.p, l.sc, es, l.pos, ctr);
      EmbeddedCat(l.img.code, l.pos, s1, GenGroup(l.img.p, l.sc, es[1..], tail, l.pos + |s1.code|, s1.next));
      EmbeddedEmit(l.img.code, l.pos, GenAt(l, es[0], false, 0, ctr), Repeat(Instr.Pop, Produced(es[0], 0)));
    }
  }

  lemma OneFails(l: Place, fuel: nat, es: seq<Expr>)
    ensures es == [] ==> FailsAllAt(l, fuel, es).None?
    ensures |es| == 1 ==> FailsAllAt(l, fuel, es) == FailsAt(l, fuel, es[0])
  {
    hide Fails, Eval;
    if |es| == 1 {
      assert es[1..] == [];
      var r := EvalAt(l, fuel, es[0]);
      assert r.Ok? ==> FailsAll(l.img.p, l.sc, fuel, [], r.env, r.world).None?;
    }
  }

  // ----- Calls of functions with a body -----

  /** A user function that fails, entered with its arguments as the whole frame, stops. */
  lemma {:induction false} FuncStops(
    img: Image, fuel: nat, f: FuncId, vals: seq<Value>, stk: seq<Word>, home: nat, w: World, x: Failure)
    requires Good(img) && SkipsQuietlyAnywhere(img.p) && img.p.IsUser(f) && InvokeFails(img.p, fuel, f, vals, w) == Some(x)
    requires HasCaller(stk, home) && RepAll(img, stk[home..], vals)
    ensures FuncLabel(f) in img.code.labels
    ensures Reaches(img.code, Running(img.code.labels[FuncLabel(f)], stk, home, w), Failed(x))
    decreases fuel, 1
  {
    hide RepAll, Gen, Good, Eval, Invoke, HasCaller, Embedded, Reaches, SkipsSafely, SkipsQuietlyAnywhere, BindInputs,
         InvokeFails, Fails, FuncScope;
    InvokeUnfold(img, fuel, f, vals, w, x);
    var l, ctr := EnterFunc(img, fuel, f, vals, stk, home, w);
    BodyDoomed(l, fuel, f, ctr, x);
    FailureStops(l, fuel, img.p.funcs[f].kind.body, true, 1, ctr, x);
    ReachTrans(img.code, Running(img.code.labels[FuncLabel(f)], stk, home, w), l.State(), Failed(x));
  }

  lemma InvokeUnfold(img: Image, fuel: nat, f: FuncId, vals: seq<Value>, w: World, x: Failure)
    requires img.p.IsUser(f) && InvokeFails(img.p, fuel, f, vals, w) == Some(x)
    ensures var kind := img.p.funcs[f].kind;
            && |vals| == |kind.consts.Inputs()|
            && Fails(img.p, FuncScope(img.p, f), fuel, kind.body, BindInputs(kind.consts.Inputs(), vals), w) == Some(x)
  {
    hide Fails, FuncScope, BindInputs;
  }

  lemma BodyDoomed(l: Place, fuel: nat, f: FuncId, ctr: nat, x: Failure)
    requires l.img.p.IsUser(f) && l.sc == FuncScope(l.img.p, f) && SkipsQuietlyAnywhere(l.img.p)
    requires Ready(l, GenAt(l, l.img.p.funcs[f].kind.body, true, 1, ctr), true, 0)
    requires l.sc.isAction || SkipsSafely(l.img.p, l.sc, l.img.p.funcs[f].kind.body)
    requires FailsAt(l, fuel, l.img.p.funcs[f].kind.body) == Some(x)
    ensures Doomed(l, fuel, l.img.p.funcs[f].kind.body, true, 1, ctr, x)
  {
    assert FuncSkipsQuietly(l.img.p, f);
    hide SkipsSafely, SkipsQuietly, Gen, Embedded, LeadsToRet, Fails, HasCaller, Good, RepEnv;
  }

  /** A call whose target and arguments are known. */
  lemma {:induction false} InvokeStops(
    l: Place, at: nat, i: Instr, env': Env, w': World, stk': seq<Word>, xs: seq<Word>, fuel: nat, f: FuncId,
    vals: seq<Value>, ws: seq<Word>, tail: bool, x: Failure)
    requires IsAt(l) && Computes(l, false, at, env', w', stk', xs)
    requires RepAll(l.img, ws, vals) && FuncLabel(f) in l.img.code.labels
    requires at < |l.img.code.instrs| && l.img.code.instrs[at] == i
    requires Exec(l.img.code, Running(at, stk' + xs, l.home, w'), i)
          == Enter(Running(at, stk' + ws, l.home, w'), |ws|, l.img.code.labels[FuncLabel(f)], tail)
    requires l.img.p.IsUser(f) && InvokeFails(l.img.p, fuel, f, vals, w') == Some(x)
    requires tail ==> HasCaller(l.stk, l.home)
    ensures Stops(l, x)
    decreases fuel, 2
  {
    hide Rep, RepAll, Good, InvokeFails, RepEnv, Enter, Exec, Reaches, ScopeOk, SkipsQuietlyAnywhere, HasCaller;
    var c, tgt := l.img.code, l.img.code.labels[FuncLabel(f)];
    ReachStep(c, l.State(), Running(at, stk' + xs, l.home, w'), i);
    if tail {
      var stk2 := ReuseFrame(l, stk', ws, at, w', tgt);
      FuncStops(l.img, fuel, f, vals, stk2, l.home, w', x);
      ReachTrans(c, l.State(), Running(tgt, stk2, l.home, w'), Failed(x));
    } else {
      var home2, stk2 := PushFrame(l, stk', ws, at, w', tgt);
      FuncStops(l.img, fuel, f, vals, stk2, home2, w', x);
      ReachTrans(c, l.State(), Running(tgt, stk2, home2, w'), Failed(x));
    }
  }

  // ----- Static calls -----

  lemma {:induction false} CallStops(
    l: Place, fuel: nat, e: Expr, tail: bool, req: nat, ctr: nat, x: Failure)
    requires e.Call? && Doomed(l, fuel, e, tail, req, ctr, x)
    ensures Stops(l, x)
    decreases fuel, 0, e, 2
  {
    hide Stops, IsAt, Embedded, Gen, GenAll, Fails, FailsAll, Eval, EvalAll, InvokeFails, IntrinsicFails, HasCaller, CallInstrs,
         SkipsSafely, AllSkipSafely, SkipsQuietly, AllSkipQuietly, RepAll, Computes;
    CallIsBuilt(l, fuel, e, tail, req, ctr, x);
    if l.img.p.funcs[e.func].kind.MakeUnion? {
      UnionStops(l, fuel, e, tail, req, ctr, x);
    } else {
      CallUnfold(l, fuel, e, tail, req, ctr, x);
      var r, more := EvalAllAt(l, fuel, e.args), CallInstrs(l.img.p, e.func, |e.args|, tail);
      if FailsAllAt(l, fuel, e.args).Some? {
        EmbeddedEmit(l.img.code, l.pos, GenAll(l.img.p, l.sc, e.args, l.pos, ctr), more);
        AllStops(l, fuel, e.args, ctr, x);
      } else {
        AtIsValid(l, e.args);
        var stk1, ws := FirstAll(l, fuel, e.args, ctr, more);
        var at := l.pos + |GenAll(l.img.p, l.sc, e.args, l.pos, ctr).code|;
        if l.img.p.IsUser(e.func) {
          UserStops(l, at, r.env, r.world, stk1, ws, fuel - 1, e.func, r.val, tail, x);
        } else {
          IntrinsicStops(l, at, r.env, r.world, stk1, ws, r.val, e.func, tail, x);
        }
      }
    }
  }

  lemma AtIsValid(l: Place, es: seq<Expr>)
    requires IsAt(l) && AllSkippable(l.img.p, l.sc, es)
    ensures l.Valid() && (l.sc.isAction || AllSkipSafely(l.img.p, l.sc, es))
  {}

  lemma CallIsBuilt(l: Place, fuel: nat, e: Expr, tail: bool, req: nat, ctr: nat, x: Failure)
    requires e.Call? && Doomed(l, fuel, e, tail, req, ctr, x)
    ensures e.func < |l.img.p.funcs| && (l.img.p.funcs[e.func].kind.MakeUnion? ==> |e.args| == 1)
  {
    hide Gen, Embedded, FailsAll, IsAt;
  }

  lemma CallUnfold(l: Place, fuel: nat, e: Expr, tail: bool, req: nat, ctr: nat, x: Failure)
    requires e.Call? && Doomed(l, fuel, e, tail, req, ctr, x)
    requires e.func < |l.img.p.funcs| && !l.img.p.funcs[e.func].kind.MakeUnion?
    ensures AllSkippable(l.img.p, l.sc, e.args)
    ensures Embedded(l.img.code, l.pos,
                     GenAll(l.img.p, l.sc, e.args, l.pos, ctr).Emit(CallInstrs(l.img.p, e.func, |e.args|, tail)))
    ensures var r := EvalAllAt(l, fuel, e.args);
            if FailsAllAt(l, fuel, e.args).Some? then FailsAllAt(l, fuel, e.args) == Some(x)
            else
              && r.Ok? && |r.val| == |e.args|
              && if l.img.p.IsUser(e.func) then fuel > 0 && InvokeFails(l.img.p, fuel - 1, e.func, r.val, r.world) == Some(x)
                 else IntrinsicFails(l.img.p.funcs[e.func].kind, r.val, r.world) == Some(x)
  {
    hide Embedded, GenAll, EvalAll, FailsAll, InvokeFails, IntrinsicFails, IsAt, HasCaller, CallInstrs, AllSkipSafely,
         AllSkipQuietly;
  }

  lemma {:induction false} UserStops(
    l: Place, at: nat, env': Env, w': World, stk': seq<Word>, ws: seq<Word>, fuel: nat, f: FuncId,
    vals: seq<Value>, tail: bool, x: Failure)
    requires IsAt(l) && Computes(l, false, at, env', w', stk', ws) && |ws| == |vals| && RepAll(l.img, ws, vals)
    requires l.img.p.IsUser(f) && InvokeFails(l.img.p, fuel, f, vals, w') == Some(x)
    requires Has(l.img.code, at, CallInstrs(l.img.p, f, |vals|, tail))
    requires tail ==> HasCaller(l.stk, l.home)
    ensures Stops(l, x)
    decreases fuel, 3
  {
    hide Stops, Rep, RepAll, Good, InvokeFails, RepEnv, Enter, Computes, ScopeOk, SkipsQuietlyAnywhere, HasCaller;
    InvokeUnfold(l.img, fuel, f, vals, w', x);
    LabelOf(l.img, f);
    var i := Instr.Call(|vals|, FuncLabel(f), tail);
    assert [i][0] == l.img.code.instrs[at + 0];
    InvokeStops(l, at, i, env', w', stk', ws, fuel, f, vals, ws, tail, x);
  }

  lemma LabelOf(img: Image, f: FuncId)
    requires Good(img) && img.p.IsUser(f)
    ensures FuncLabel(f) in img.code.labels && |img.p.funcs[f].kind.consts.Inputs()| <= 255
  {
    assert Linked(img, f) && FuncFits(img.p, f);
    hide Embedded, GenFunc;
  }

  lemma IntrinsicStops(
    l: Place, at: nat, env': Env, w': World, stk': seq<Word>, ws: seq<Word>, vs: seq<Value>, f: FuncId, tail: bool,
    x: Failure)
    requires Computes(l, false, at, env', w', stk', ws) && |ws| == |vs| && RepAll(l.img, ws, vs)
    requires f < |l.img.p.funcs| && IntrinsicFails(l.img.p.funcs[f].kind, vs, w') == Some(x)
    requires Has(l.img.code, at, CallInstrs(l.img.p, f, |vs|, tail))
    ensures Stops(l, x)
  {
    hide Stops, Computes;
    var more := CallInstrs(l.img.p, f, |vs|, tail);
    assert more[0] == l.img.code.instrs[at + 0];
    if l.img.p.funcs[f].kind.Binary? {
      assert ws == [WInt(vs[0].i), WInt(vs[1].i)];
      var st := stk' + ws;
      assert st[|st| - 1] == WInt(vs[1].i) && st[|st| - 2] == WInt(vs[0].i);
    }
    StopsNext(l, at, env', w', stk', ws, more[0], x);
  }

  // ----- Making unions -----

  lemma {:induction false} UnionStops(
    l: Place, fuel: nat, e: Expr, tail: bool, req: nat, ctr: nat, x: Failure)
    requires e.Call? && Doomed(l, fuel, e, tail, req, ctr, x)
    requires e.func < |l.img.p.funcs| && l.img.p.funcs[e.func].kind.MakeUnion? && |e.args| == 1
    ensures Stops(l, x)
    decreases fuel, 0, e, 1
  {
    hide Stops, IsAt, Embedded, Gen, Fails, Eval, HasCaller, SkipsSafely, SkipsQuietly, Computes, UnionIsNullableStruct,
         StructIsTagType, UnionDiscriminant;
    var u, t, arg := l.img.p.funcs[e.func].kind.utype, l.img.p.funcs[e.func].kind.member, e.args[0];
    UnionUnfold(l, fuel, e, tail, req, ctr, x);
    if UnionIsNullableStruct(l.img.p, u) {
      if StructIsTagType(l.img.p, t) {
        FailureStops(l, fuel, arg, false, 1, ctr, x);
      } else {
        FailureStops(l, fuel, arg, tail, 1, ctr, x);
      }
    } else {
      var d := UnionDiscriminant(l.img.p, u, t);
      PushesInt(l, ctr, d);
      var l2 := Above(l, l.pos + 1, l.env, l.w, l.stk, [WInt(d)]);
      FailureStops(l2, fuel, arg, false, 1, ctr, x);
      ThenStops(l, l2, l.env, l.w, l.stk, [WInt(d)], x);
    }
  }

  lemma PushesInt(l: Place, ctr: nat, d: int)
    requires IsAt(l) && Embedded(l.img.code, l.pos, Seg([LoadLitInt(d)], [], ctr))
    ensures Computes(l, false, l.pos + 1, l.env, l.w, l.stk, [WInt(d)])
  {
    hide Computes, Good, RepEnv, ScopeOk, Embedded;
    Single(l, Seg([LoadLitInt(d)], [], ctr), WInt(d));
  }

  /** The operand fails; it has code, for a pure function skips no operand that can fail. */
  lemma UnionUnfold(l: Place, fuel: nat, e: Expr, tail: bool, req: nat, ctr: nat, x: Failure)
    requires e.Call? && Doomed(l, fuel, e, tail, req, ctr, x)
    requires e.func < |l.img.p.funcs| && l.img.p.funcs[e.func].kind.MakeUnion? && |e.args| == 1
    ensures FailsAt(l, fuel, e.args[0]) == Some(x) && Skippable(l.img.p, l.sc, e.args[0])
    ensures var u, t := l.img.p.funcs[e.func].kind.utype, l.img.p.funcs[e.func].kind.member;
            if UnionIsNullableStruct(l.img.p, u) then
              Embedded(l.img.code, l.pos, GenAt(l, e.args[0], tail && !StructIsTagType(l.img.p, t), 1, ctr))
            else
              && Embedded(l.img.code, l.pos, Seg([LoadLitInt(UnionDiscriminant(l.img.p, u, t))], [], ctr))
              && Embedded(l.img.code, l.pos + 1, Gen(l.img.p, l.sc, e.args[0], false, 1, l.pos + 1, ctr))
  {
    hide Embedded, IsAt, HasCaller, UnionIsNullableStruct, StructIsTagType, UnionDiscriminant;
    UnionFails(l, fuel, e, x);
    UnionHasCode(l, fuel, e, x);
    UnionPlaced(l, e, tail, req, ctr);
  }

  lemma UnionFails(l: Place, fuel: nat, e: Expr, x: Failure)
    requires e.Call? && e.func < |l.img.p.funcs| && l.img.p.funcs[e.func].kind.MakeUnion? && |e.args| == 1
    requires FailsAt(l, fuel, e) == Some(x)
    ensures FailsAt(l, fuel, e.args[0]) == Some(x)
  {
    hide Eval, FailsAll;
    OneFails(l, fuel, e.args);
  }

  lemma UnionHasCode(l: Place, fuel: nat, e: Expr, x: Failure)
    requires e.Call? && e.func < |l.img.p.funcs| && l.img.p.funcs[e.func].kind.MakeUnion? && |e.args| == 1
    requires FailsAt(l, fuel, e.args[0]) == Some(x) && Skippable(l.img.p, l.sc, e)
    ensures Skippable(l.img.p, l.sc, e.args[0]) && (IsTagUnion(l.img.p, e.func) ==> l.sc.isAction)
  {
    hide Fails, IsTagUnion;
    if !l.sc.isAction {
      if IsTagUnion(l.img.p, e.func) {
        assert AllNeverFail(l.img.p, e.args);
        NeverFailsIsRight(l.img.p, l.sc, fuel, e.args[0], l.env, l.w);
      } else {
        assert AllSkipSafely(l.img.p, l.sc, e.args) && AllSkipQuietly(l.img.p, e.args);
      }
    }
  }

  lemma UnionPlaced(l: Place, e: Expr, tail: bool, req: nat, ctr: nat)
    requires e.Call? && e.func < |l.img.p.funcs| && l.img.p.funcs[e.func].kind.MakeUnion? && |e.args| == 1
    requires Embedded(l.img.code, l.pos, GenAt(l, e, tail, req, ctr)) && (IsTagUnion(l.img.p, e.func) ==> l.sc.isAction)
    ensures var u, t := l.img.p.funcs[e.func].kind.utype, l.img.p.funcs[e.func].kind.member;
            if UnionIsNullableStruct(l.img.p, u) then
              Embedded(l.img.code, l.pos, GenAt(l, e.args[0], tail && !StructIsTagType(l.img.p, t), 1, ctr))
            else
              && Embedded(l.img.code, l.pos, Seg([LoadLitInt(UnionDiscriminant(l.img.p, u, t))], [], ctr))
              && Embedded(l.img.code, l.pos + 1, Gen(l.img.p, l.sc, e.args[0], false, 1, l.pos + 1, ctr))
  {
    hide Embedded, UnionIsNullableStruct, StructIsTagType, UnionDiscriminant;
    ReqFree(l, e, tail, req, ctr);
    MakeUnionGen(l, e, tail, ctr);
    hide Gen;
    var u, t, arg := l.img.p.funcs[e.func].kind.utype, l.img.p.funcs[e.func].kind.member, e.args[0];
    if !UnionIsNullableStruct(l.img.p, u) {
      var s1 := Seg([LoadLitInt(UnionDiscriminant(l.img.p, u, t))], [], ctr);
      DynPlaced(l.img.code, l.pos, s1, Gen(l.img.p, l.sc, arg, false, 1, l.pos + 1, ctr), Instr.MakeStruct(2));
    } else if StructIsTagType(l.img.p, t) {
      var s1 := GenAt(l, arg, false, 1, ctr);
      EmbeddedEmit(l.img.code, l.pos, s1.Emit([Instr.Pop]), [MakeNullStruct]);
      EmbeddedEmit(l.img.code, l.pos, s1, [Instr.Pop]);
    }
  }

  // ----- Calls of the function itself -----

  lemma {:induction false} SelfStops(
    l: Place, fuel: nat, e: Expr, tail: bool, req: nat, ctr: nat, x: Failure)
    requires e.CallSelf? && Doomed(l, fuel, e, tail, req, ctr, x)
    ensures Stops(l, x)
    decreases fuel, 0, e, 2
  {
    hide Stops, IsAt, Embedded, Gen, GenAll, Fails, FailsAll, Eval, EvalAll, InvokeFails, HasCaller, LoadConsts, Lookups, NoneDead,
         SkipsSafely, AllSkipSafely, SkipsQuietly, AllSkipQuietly, RepAll, Computes;
    SelfUnfold(l, fuel, e, tail, req, ctr, x);
    var r, consts := EvalAllAt(l, fuel, e.args), l.sc.consts;
    var i := Instr.Call(|consts.Inputs()|, FuncLabel(l.sc.func.value), tail);
    var more := LoadConsts(consts, consts.bound) + [i];
    if FailsAllAt(l, fuel, e.args).Some? {
      EmbeddedEmit(l.img.code, l.pos, GenAll(l.img.p, l.sc, e.args, l.pos, ctr), more);
      AllStops(l, fuel, e.args, ctr, x);
    } else {
      AtIsValid(l, e.args);
      var stk1, ws := FirstAll(l, fuel, e.args, ctr, more);
      var at := l.pos + |GenAll(l.img.p, l.sc, e.args, l.pos, ctr).code|;
      SelfInvokes(l, at, r.env, r.world, stk1, ws, fuel - 1, r.val, tail, x);
    }
  }

  lemma SelfUnfold(l: Place, fuel: nat, e: Expr, tail: bool, req: nat, ctr: nat, x: Failure)
    requires e.CallSelf? && Doomed(l, fuel, e, tail, req, ctr, x)
    ensures AllSkippable(l.img.p, l.sc, e.args) && NoneDead(l.img.p, l.sc, l.sc.consts.bound)
    ensures l.sc.func.Some? && l.img.p.IsUser(l.sc.func.value)
    ensures Embedded(l.img.code, l.pos,
                     GenAll(l.img.p, l.sc, e.args, l.pos, ctr).Emit(
                       LoadConsts(l.sc.consts, l.sc.consts.bound)
                       + [Instr.Call(|l.sc.consts.Inputs()|, FuncLabel(l.sc.func.value), tail)]))
    ensures var r := EvalAllAt(l, fuel, e.args);
            if FailsAllAt(l, fuel, e.args).Some? then FailsAllAt(l, fuel, e.args) == Some(x)
            else
              && r.Ok? && |r.val| == |e.args| == |l.sc.consts.inputs| && fuel > 0
              && Lookups(r.env, l.sc.consts.bound).Some?
              && InvokeFails(l.img.p, fuel - 1, l.sc.func.value, r.val + Lookups(r.env, l.sc.consts.bound).value, r.world)
                 == Some(x)
  {
    hide Embedded, Gen, GenAll, EvalAll, FailsAll, InvokeFails, HasCaller, LoadConsts, Lookups, AllSkipSafely, AllSkipQuietly,
         NoneDead, SkipsQuietlyAnywhere, RepEnv;
    assert Fits(l.img.p);
    hide Good;
    ReqFree(l, e, tail, req, ctr);
    if l.sc.isAction { SelfSkips(l, e); }
    SelfGen(l, e, tail, ctr);
  }

  lemma {:induction false} SelfInvokes(
    l: Place, at: nat, env': Env, w': World, stk': seq<Word>, ws: seq<Word>, fuel: nat, vs: seq<Value>, tail: bool,
    x: Failure)
    requires IsAt(l) && Computes(l, false, at, env', w', stk', ws) && |ws| == |vs| && RepAll(l.img, ws, vs)
    requires l.sc.func.Some? && l.img.p.IsUser(l.sc.func.value) && Lookups(env', l.sc.consts.bound).Some?
    requires |vs| == |l.sc.consts.inputs| && NoneDead(l.img.p, l.sc, l.sc.consts.bound)
    requires Has(l.img.code, at, LoadConsts(l.sc.consts, l.sc.consts.bound)
                                 + [Instr.Call(|l.sc.consts.Inputs()|, FuncLabel(l.sc.func.value), tail)])
    requires InvokeFails(l.img.p, fuel, l.sc.func.value, vs + Lookups(env', l.sc.consts.bound).value, w') == Some(x)
    requires tail ==> HasCaller(l.stk, l.home)
    ensures Stops(l, x)
    decreases fuel, 3
  {
    hide Stops, Computes, RepEnv, RepAll, LoadConsts, Lookups, InvokeFails, NoneDead, Good, Enter, ScopeOk, HasCaller,
         SkipsQuietlyAnywhere;
    var consts, f := l.sc.consts, l.sc.func.value;
    var loads, i := LoadConsts(consts, consts.bound), Instr.Call(|consts.Inputs()|, FuncLabel(f), tail);
    LabelOf(l.img, f);
    HasSplit(l.img.code, at, loads, [i]);
    assert [i][0] == l.img.code.instrs[at + |loads| + 0];
    var ws2 := PushConsts(l, at, env', w', stk', ws, vs, consts.bound);
    InvokeStops(l, at + |loads|, i, env', w', stk', ws2, fuel, f, vs + Lookups(env', consts.bound).value, ws2, tail, x);
  }

  // ----- Dynamic calls -----

  lemma {:induction false} DynStops(
    l: Place, fuel: nat, e: Expr, tail: bool, req: nat, ctr: nat, x: Failure)
    requires e.CallDyn? && Doomed(l, fuel, e, tail, req, ctr, x)
    ensures Stops(l, x)
    decreases fuel, 0, e, 2
  {
    hide Stops, IsAt, Embedded, Gen, GenAll, Fails, FailsAll, Eval, EvalAll, InvokeFails, HasCaller, SkipsSafely, AllSkipSafely,
         SkipsQuietly, AllSkipQuietly, RepAll, Rep, Computes;
    var s1, s2 := DynUnfold(l, fuel, e, tail, req, ctr, x);
    var r := EvalAllAt(l, fuel, e.args);
    if FailsAllAt(l, fuel, e.args).Some? {
      AllStops(l, fuel, e.args, ctr, x);
    } else {
      AtIsValid(l, e.args);
      var stk1, ws := CorrectAll(l, fuel, e.args, ctr);
      var l2 := Above(l, l.pos + |s1.code|, r.env, r.world, stk1, ws);
      if FailsAt(l2, fuel, e.tgt).Some? {
        FailureStops(l2, fuel, e.tgt, false, 1, s1.next, x);
        ThenStops(l, l2, r.env, r.world, stk1, ws, x);
      } else {
        DynInvokes(l, fuel, e, tail, ctr, x, s1, s2);
      }
    }
  }

  ghost predicate DynTargets(l: Place, fuel: nat, e: Expr, x: Failure)
    requires e.CallDyn?
  {
    var r := EvalAllAt(l, fuel, e.args);
    && r.Ok? && |r.val| == |e.args|
    && var t := Eval(l.img.p, l.sc, fuel, e.tgt, r.env, r.world);
    && t.Ok? && t.val.VFunc? && l.img.p.IsUser(t.val.func) && fuel > 0
    && InvokeFails(l.img.p, fuel - 1, t.val.func, r.val + t.val.bound, t.world) == Some(x)
  }

  lemma DynUnfold(l: Place, fuel: nat, e: Expr, tail: bool, req: nat, ctr: nat, x: Failure) returns (s1: Seg, s2: Seg)
    requires e.CallDyn? && Doomed(l, fuel, e, tail, req, ctr, x)
    ensures AllSkippable(l.img.p, l.sc, e.args) && Skippable(l.img.p, l.sc, e.tgt)
    ensures s1 == GenAll(l.img.p, l.sc, e.args, l.pos, ctr)
    ensures s2 == Gen(l.img.p, l.sc, e.tgt, false, 1, l.pos + |s1.code|, s1.next)
    ensures Embedded(l.img.code, l.pos, s1) && Embedded(l.img.code, l.pos + |s1.code|, s2)
    ensures l.pos + |s1.code| + |s2.code| < |l.img.code.instrs|
    ensures l.img.code.instrs[l.pos + |s1.code| + |s2.code|] == Instr.CallDyn(Narrow8(|e.args|), tail)
    ensures var r := EvalAllAt(l, fuel, e.args);
            if FailsAllAt(l, fuel, e.args).Some? then FailsAllAt(l, fuel, e.args) == Some(x)
            else
              && r.Ok?
              && if Fails(l.img.p, l.sc, fuel, e.tgt, r.env, r.world).Some?
                 then Fails(l.img.p, l.sc, fuel, e.tgt, r.env, r.world) == Some(x)
                 else DynTargets(l, fuel, e, x)
  {
    hide Embedded, IsAt, GenAll, EvalAll, FailsAll, InvokeFails, HasCaller, AllSkipSafely, AllSkipQuietly, Narrow8;
    s1 := GenAll(l.img.p, l.sc, e.args, l.pos, ctr);
    s2 := Gen(l.img.p, l.sc, e.tgt, false, 1, l.pos + |s1.code|, s1.next);
    assert GenAt(l, e, tail, req, ctr) == s1.Cat(s2).Emit([Instr.CallDyn(Narrow8(|e.args|), tail)]);
    DynPlaced(l.img.code, l.pos, s1, s2, Instr.CallDyn(Narrow8(|e.args|), tail));
  }

  lemma {:induction false} DynInvokes(
    l: Place, fuel: nat, e: Expr, tail: bool, ctr: nat, x: Failure, s1: Seg, s2: Seg)
    requires e.CallDyn? && IsAt(l) && DynTargets(l, fuel, e, x)
    requires AllSkippable(l.img.p, l.sc, e.args) && Skippable(l.img.p, l.sc, e.tgt)
    requires s1 == GenAll(l.img.p, l.sc, e.args, l.pos, ctr)
    requires s2 == Gen(l.img.p, l.sc, e.tgt, false, 1, l.pos + |s1.code|, s1.next)
    requires Embedded(l.img.code, l.pos, s1) && Embedded(l.img.code, l.pos + |s1.code|, s2)
    requires l.pos + |s1.code| + |s2.code| < |l.img.code.instrs|
    requires l.img.code.instrs[l.pos + |s1.code| + |s2.code|] == Instr.CallDyn(Narrow8(|e.args|), tail)
    requires tail ==> HasCaller(l.stk, l.home)
    ensures Stops(l, x)
    decreases fuel, 0, e, 1
  {
    hide Stops, Embedded, Gen, GenAll, Eval, EvalAll, InvokeFails, HasCaller, SkipsSafely, AllSkipSafely,
         SkipsQuietly, AllSkipQuietly, RepAll, Rep, Computes, Good, RepEnv, ScopeOk, SkipsQuietlyAnywhere;
    var r := EvalAllAt(l, fuel, e.args);
    var t := Eval(l.img.p, l.sc, fuel, e.tgt, r.env, r.world);
    InvokeUnfold(l.img, fuel - 1, t.val.func, r.val + t.val.bound, t.world, x);
    LabelOf(l.img, t.val.func);
    var stk1, ws, d := DynOperands(l, fuel, e, ctr, r, t, s1, s2);
    DynEntersAndStops(l, l.pos + |s1.code| + |s2.code|, t.env, t.world, stk1, ws, d, r.val, fuel - 1, t.val.func,
                      t.val.bound, tail, x);
  }

  lemma {:induction false} DynEntersAndStops(
    l: Place, at: nat, env': Env, w': World, stk': seq<Word>, ws: seq<Word>, d: Word, vs: seq<Value>, fuel: nat,
    f: FuncId, bound: seq<Value>, tail: bool, x: Failure)
    requires IsAt(l) && Computes(l, false, at, env', w', stk', ws + [d])
    requires RepAll(l.img, ws, vs) && Rep(l.img.p, l.img.code.labels, d, VFunc(f, bound))
    requires at < |l.img.code.instrs| && l.img.code.instrs[at] == Instr.CallDyn(|ws|, tail)
    requires l.img.p.IsUser(f) && InvokeFails(l.img.p, fuel, f, vs + bound, w') == Some(x)
    requires tail ==> HasCaller(l.stk, l.home)
    ensures Stops(l, x)
    decreases fuel, 3
  {
    hide Stops, Computes, IsAt, InvokeFails, Rep, Enter, Exec, HasCaller;
    var c := l.img.code;
    var bws := BoundWords(l.img, d, f, bound);
    assert RepAll(l.img, ws + bws, vs + bound);
    DynEnters(c, Running(at, stk', l.home, w'), ws, bws, d, c.labels[FuncLabel(f)], tail);
    InvokeStops(l, at, Instr.CallDyn(|ws|, tail), env', w', stk', ws + [d], fuel, f, vs + bound, ws + bws, tail, x);
  }

  // ----- Switches -----

  lemma {:induction false} SwitchStops(
    l: Place, fuel: nat, e: Expr, tail: bool, req: nat, ctr: nat, x: Failure)
    requires e.Switch? && Doomed(l, fuel, e, tail, req, ctr, x)
    ensures Stops(l, x)
    decreases fuel, 0, e, 2
  {
    hide Stops, IsAt, Embedded, Gen, GenConds, GenBranches, Fails, FailsConds, Eval, EvalConds, HasCaller, SkipsSafely,
         AllSkipSafely, SkipsQuietly, AllSkipQuietly, Computes, HasIfLabels, Has;
    SwitchUnfold(l, fuel, e, tail, req, ctr, x);
    var s := SwitchReady(l, e, tail, ctr);
    if FailsConds(l.img.p, l.sc, fuel, e.conds, l.env, l.w).Some? {
      CondsStop(l, fuel, e.conds, ctr, ctr + |e.conds| + 1, x);
    } else {
      AtIsValid(l, e.conds);
      var r := EvalCondsAt(l, fuel, e.conds);
      var stk1 := CorrectConds(l, fuel, e.conds, ctr, ctr + |e.conds| + 1);
      var at, ctr2 := BranchPlace(l, e, tail, ctr, s, r.val);
      var l2 := Above(l, at, r.env, r.world, stk1, []);
      if tail { CallerKept(l, at, r.env, r.world, stk1); }
      FailureStops(l2, fuel, e.branches[r.val], tail, 1, ctr2, x);
      ThenStops(l, l2, r.env, r.world, stk1, [], x);
    }
  }

  /** Where the branch taken stands. */
  lemma BranchPlace(l: Place, e: Expr, tail: bool, ctr: nat, s: SwitchCode, i: nat) returns (at: nat, ctr2: nat)
    requires e.Switch? && |e.branches| == |e.conds| + 1 && i <= |e.conds| && HasIfLabels(l.img.code, ctr, |e.conds|)
    requires s.tests == GenConds(l.img.p, l.sc, e.conds, ctr, l.pos, ctr + |e.conds| + 1)
    requires s.other == Gen(l.img.p, l.sc, e.branches[|e.conds|], tail, 1, l.pos + |s.tests.code|, s.tests.next)
    requires s.rest == GenBranches(l.img.p, l.sc, e.branches, tail, ctr, s.end, s.at, s.other.next)
    requires Embedded(l.img.code, l.pos + |s.tests.code|, s.other) && Embedded(l.img.code, s.at, s.rest)
    ensures at == if i < |e.conds| then l.img.code.labels[Generated(SwitchIf, ctr + i)] else l.pos + |s.tests.code|
    ensures Embedded(l.img.code, at, Gen(l.img.p, l.sc, e.branches[i], tail, 1, at, ctr2))
  {
    hide Embedded, Gen, GenConds, GenBranches;
    if i < |e.conds| {
      at, ctr2 := BranchAt(l, e.branches, tail, ctr, s.end, s.at, s.other.next, i);
    } else {
      at, ctr2 := l.pos + |s.tests.code|, s.tests.next;
    }
  }

  lemma SwitchUnfold(l: Place, fuel: nat, e: Expr, tail: bool, req: nat, ctr: nat, x: Failure)
    requires e.Switch? && Doomed(l, fuel, e, tail, req, ctr, x)
    ensures |e.branches| == |e.conds| + 1 && Embedded(l.img.code, l.pos, GenAt(l, e, tail, 1, ctr))
    ensures AllSkippable(l.img.p, l.sc, e.conds)
    ensures var r := EvalCondsAt(l, fuel, e.conds);
            if FailsConds(l.img.p, l.sc, fuel, e.conds, l.env, l.w).Some?
            then FailsConds(l.img.p, l.sc, fuel, e.conds, l.env, l.w) == Some(x)
            else
              && r.Ok? && r.val <= |e.conds| && Skippable(l.img.p, l.sc, e.branches[r.val])
              && Fails(l.img.p, l.sc, fuel, e.branches[r.val], r.env, r.world) == Some(x)
  {
    hide Embedded, IsAt, Gen, FailsConds, EvalConds, HasCaller, AllSkipSafely, AllSkipQuietly;
    ReqFree(l, e, tail, req, ctr);
    var r := EvalCondsAt(l, fuel, e.conds);
    if !l.sc.isAction && r.Ok? {
      AllSkipSafelyAt(l.img.p, l.sc, e.branches, r.val);
      AllSkipQuietlyAt(l.img.p, e.branches, r.val);
    }
  }

  lemma {:induction false} CondsStop(l: Place, fuel: nat, cs: seq<Expr>, first: nat, ctr: nat, x: Failure)
    requires IsAt(l) && Embedded(l.img.code, l.pos, GenConds(l.img.p, l.sc, cs, first, l.pos, ctr))
    requires HasIfLabels(l.img.code, first, |cs|) && AllSkippable(l.img.p, l.sc, cs)
    requires FailsConds(l.img.p, l.sc, fuel, cs, l.env, l.w) == Some(x)
    ensures Stops(l, x)
    decreases fuel, 0, cs, 3
  {
    hide Stops, Embedded, Gen, GenConds, Fails, FailsConds, Eval, HasCaller, SkipsSafely,
         AllSkipSafely, SkipsQuietly, AllSkipQuietly, Computes, Good, RepEnv, ScopeOk, SkipsQuietlyAnywhere;
    CondsUnfold(l, fuel, cs, first, ctr, x);
    var r, s0 := EvalAt(l, fuel, cs[0]), GenAt(l, cs[0], false, 1, ctr);
    var jump := JumpIf(Generated(SwitchIf, first));
    if FailsAt(l, fuel, cs[0]).Some? {
      EmbeddedEmit(l.img.code, l.pos, s0, [jump]);
      FailureStops(l, fuel, cs[0], false, 1, ctr, x);
    } else {
      var stk1, y := First(l, fuel, cs[0], 1, ctr, [jump]);
      assert [jump][0] == l.img.code.instrs[l.pos + |s0.code| + 0];
      assert [] + [y] == [y];
      ThenJumpIf(l, l.pos + |s0.code|, r.env, r.world, stk1, [], 0);
      var l2 := Above(l, l.pos + |s0.code| + 1, r.env, r.world, stk1, []);
      CondsStop(l2, fuel, cs[1..], first + 1, s0.next, x);
      ThenStops(l, l2, r.env, r.world, stk1, [], x);
    }
  }

  lemma CondsUnfold(l: Place, fuel: nat, cs: seq<Expr>, first: nat, ctr: nat, x: Failure)
    requires Embedded(l.img.code, l.pos, GenConds(l.img.p, l.sc, cs, first, l.pos, ctr)) && AllSkippable(l.img.p, l.sc, cs)
    requires FailsConds(l.img.p, l.sc, fuel, cs, l.env, l.w) == Some(x)
    ensures cs != [] && Skippable(l.img.p, l.sc, cs[0]) && AllSkippable(l.img.p, l.sc, cs[1..])
    ensures var s0, r := GenAt(l, cs[0], false, 1, ctr), EvalAt(l, fuel, cs[0]);
            && Embedded(l.img.code, l.pos, s0.Emit([JumpIf(Generated(SwitchIf, first))]))
            && Embedded(l.img.code, l.pos + |s0.code| + 1,
                        GenConds(l.img.p, l.sc, cs[1..], first + 1, l.pos + |s0.code| + 1, s0.next))
            && if FailsAt(l, fuel, cs[0]).Some? then FailsAt(l, fuel, cs[0]) == Some(x)
               else r.Ok? && r.val == VInt(0) && FailsConds(l.img.p, l.sc, fuel, cs[1..], r.env, r.world) == Some(x)
  {
    hide Embedded, Gen, Eval, Fails, SkipsSafely, SkipsQuietly;
    CondsGen(l.img.p, l.sc, cs, first, l.pos, ctr);
    var s1 := GenAt(l, cs[0], false, 1, ctr).Emit([JumpIf(Generated(SwitchIf, first))]);
    EmbeddedCat(l.img.code, l.pos, s1, GenConds(l.img.p, l.sc, cs[1..], first + 1, l.pos + |s1.code|, s1.next));
  }
}
