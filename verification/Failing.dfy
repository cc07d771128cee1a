/** When the evaluation of an expression ends in a failure: a call of the failing function, a fail node or
    a division by zero. The other expressions that do not evaluate are stuck or run out of fuel. */
module Failing {
  import opened Lang
  import opened CodeGen
  import opened Skipping

  /** The trees the front end builds; others have no code. */
  predicate IsBuilt(p: Program, sc: Scope, e: Expr) {
    match e
    case Switch(cs, bs) => |bs| == |cs| + 1
    case Call(f, args) => f < |p.funcs| && (p.funcs[f].kind.MakeUnion? ==> |args| == 1)
    case CallSelf(_) => sc.func.Some? && p.IsUser(sc.func.value)
    case _ => true
  }

  /** How the evaluation of e fails, if it does: at the first expression that fails, in the order of
      evaluation, after all before it have been evaluated. */
  function Fails(p: Program, sc: Scope, fuel: nat, e: Expr, env: Env, w: World): Option<Failure>
    decreases fuel, 0, e
  {
    if !IsBuilt(p, sc, e) then None
    else
      match e
      case FailNode => Some(Failure(FailCalled, w))
      case Assign(_, init) => Fails(p, sc, fuel, init, env, w)
      case Group(es) => FailsAll(p, sc, fuel, es, env, w)
      case Switch(cs, bs) =>
        if FailsConds(p, sc, fuel, cs, env, w).Some? then FailsConds(p, sc, fuel, cs, env, w)
        else
          (match EvalConds(p, sc, fuel, cs, env, w)
           case Ok(k, env1, w1) => Fails(p, sc, fuel, bs[k], env1, w1)
           case Err => None)
      case Call(f, args) =>
        if FailsAll(p, sc, fuel, args, env, w).Some? then FailsAll(p, sc, fuel, args, env, w)
        else
          (match EvalAll(p, sc, fuel, args, env, w)
           case Ok(vs, _, w1) =>
             if p.funcs[f].isAction && !sc.isAction then None
             else if p.IsUser(f) then if fuel == 0 then None else InvokeFails(p, fuel - 1, f, vs, w1)
             else IntrinsicFails(p.funcs[f].kind, vs, w1)
           case Err => None)
      case CallDyn(tgt, args, act) =>
        if FailsAll(p, sc, fuel, args, env, w).Some? then FailsAll(p, sc, fuel, args, env, w)
        else
          (match EvalAll(p, sc, fuel, args, env, w)
           case Ok(vs, env1, w1) =>
             if Fails(p, sc, fuel, tgt, env1, w1).Some? then Fails(p, sc, fuel, tgt, env1, w1)
             else
               (match Eval(p, sc, fuel, tgt, env1, w1)
                case Ok(t, _, w2) =>
                  if t.VFunc? && p.IsUser(t.func) && fuel > 0
                     && (p.funcs[t.func].isAction ==> act) && (act ==> sc.isAction)
                  then InvokeFails(p, fuel - 1, t.func, vs + t.bound, w2)
                  else None
                case Err => None)
           case Err => None)
      case CallSelf(args) =>
        if FailsAll(p, sc, fuel, args, env, w).Some? then FailsAll(p, sc, fuel, args, env, w)
        else
          (match EvalAll(p, sc, fuel, args, env, w)
           case Ok(vs, env1, w1) =>
             if |vs| == |sc.consts.inputs| && fuel > 0 && Lookups(env1, sc.consts.bound).Some?
             then InvokeFails(p, fuel - 1, sc.func.value, vs + Lookups(env1, sc.consts.bound).value, w1)
             else None
           case Err => None)
      case Closure(_, args) => FailsAll(p, sc, fuel, args, env, w)
      case Field(_, lhs, _) => Fails(p, sc, fuel, lhs, env, w)
      case UnionCheck(_, lhs, _) => Fails(p, sc, fuel, lhs, env, w)
      case UnionGet(_, lhs, _, _) => Fails(p, sc, fuel, lhs, env, w)
      case _ => None
  }

  function FailsAll(p: Program, sc: Scope, fuel: nat, es: seq<Expr>, env: Env, w: World): Option<Failure>
    decreases fuel, 0, es
  {
    if es == [] then None
    else if Fails(p, sc, fuel, es[0], env, w).Some? then Fails(p, sc, fuel, es[0], env, w)
    else
      match Eval(p, sc, fuel, es[0], env, w)
      case Ok(_, env1, w1) => FailsAll(p, sc, fuel, es[1..], env1, w1)
      case Err => None
  }

  function FailsConds(p: Program, sc: Scope, fuel: nat, cs: seq<Expr>, env: Env, w: World): Option<Failure>
    decreases fuel, 0, cs
  {
    if cs == [] then None
    else if Fails(p, sc, fuel, cs[0], env, w).Some? then Fails(p, sc, fuel, cs[0], env, w)
    else
      match Eval(p, sc, fuel, cs[0], env, w)
      case Ok(c, env1, w1) => if c == VInt(0) then FailsConds(p, sc, fuel, cs[1..], env1, w1) else None
      case Err => None
  }

  function InvokeFails(p: Program, fuel: nat, f: FuncId, vals: seq<Value>, w: World): Option<Failure>
    requires p.IsUser(f)
    decreases fuel, 1
  {
    var kind := p.funcs[f].kind;
    if |vals| == |kind.consts.Inputs()| then
      Fails(p, FuncScope(p, f), fuel, kind.body, BindInputs(kind.consts.Inputs(), vals), w)
    else None
  }

  function IntrinsicFails(kind: FuncKind, vals: seq<Value>, w: World): Option<Failure> {
    match kind
    case Fail => Some(Failure(FailCalled, w))
    case Binary(op) =>
      if |vals| == 2 && vals[0].VInt? && vals[1].VInt? && DividesByZero(op, vals[1].i)
      then Some(Failure(DividedByZero, w))
      else None
    case _ => None
  }

  /** How a program fails: at the first execute statement that does. */
  function ProgramFails(p: Program, fuel: nat, execs: seq<ExecStmt>, w: World): Option<Failure> {
    if execs == [] then None
    else if Fails(p, ExecScope(execs[0]), fuel, execs[0].expr, map[], w).Some?
    then Fails(p, ExecScope(execs[0]), fuel, execs[0].expr, map[], w)
    else
      match Eval(p, ExecScope(execs[0]), fuel, execs[0].expr, map[], w)
      case Ok(_, _, w1) => ProgramFails(p, fuel, execs[1..], w1)
      case Err => None
  }

  // ----- What fails has no value -----

  lemma {:induction false} FailsIsErr(p: Program, sc: Scope, fuel: nat, e: Expr, env: Env, w: World)
    requires Fails(p, sc, fuel, e, env, w).Some?
    ensures Eval(p, sc, fuel, e, env, w).Err?
    decreases fuel, 0, e
  {
    match e
    case Assign(_, init) => FailsIsErr(p, sc, fuel, init, env, w);
    case Group(es) => FailsAllIsErr(p, sc, fuel, es, env, w);
    case Switch(cs, bs) =>
      if FailsConds(p, sc, fuel, cs, env, w).Some? {
        FailsCondsIsErr(p, sc, fuel, cs, env, w);
      } else {
        var r := EvalConds(p, sc, fuel, cs, env, w);
        FailsIsErr(p, sc, fuel, bs[r.val], r.env, r.world);
      }
    case Call(_, _) => FailsCallIsErr(p, sc, fuel, e, env, w);
    case CallDyn(_, _, _) => FailsDynIsErr(p, sc, fuel, e, env, w);
    case CallSelf(_) => FailsSelfIsErr(p, sc, fuel, e, env, w);
    case Closure(_, args) => FailsAllIsErr(p, sc, fuel, args, env, w);
    case Field(_, lhs, _) => FailsIsErr(p, sc, fuel, lhs, env, w);
    case UnionCheck(_, lhs, _) => FailsIsErr(p, sc, fuel, lhs, env, w);
    case UnionGet(_, lhs, _, _) => FailsIsErr(p, sc, fuel, lhs, env, w);
    case _ =>
  }

  lemma {:induction false} FailsCallIsErr(p: Program, sc: Scope, fuel: nat, e: Expr, env: Env, w: World)
    requires e.Call? && Fails(p, sc, fuel, e, env, w).Some?
    ensures Eval(p, sc, fuel, e, env, w).Err?
    decreases fuel, 0, e, 0
  {
    if FailsAll(p, sc, fuel, e.args, env, w).Some? {
      FailsAllIsErr(p, sc, fuel, e.args, env, w);
    } else {
      var r := EvalAll(p, sc, fuel, e.args, env, w);
      if p.IsUser(e.func) { InvokeFailsIsErr(p, fuel - 1, e.func, r.val, r.world); }
    }
  }

  lemma {:induction false} FailsDynIsErr(p: Program, sc: Scope, fuel: nat, e: Expr, env: Env, w: World)
    requires e.CallDyn? && Fails(p, sc, fuel, e, env, w).Some?
    ensures Eval(p, sc, fuel, e, env, w).Err?
    decreases fuel, 0, e, 0
  {
    if FailsAll(p, sc, fuel, e.args, env, w).Some? {
      FailsAllIsErr(p, sc, fuel, e.args, env, w);
    } else {
      var r := EvalAll(p, sc, fuel, e.args, env, w);
      if Fails(p, sc, fuel, e.tgt, r.env, r.world).Some? {
        FailsIsErr(p, sc, fuel, e.tgt, r.env, r.world);
      } else {
        var t := Eval(p, sc, fuel, e.tgt, r.env, r.world);
        InvokeFailsIsErr(p, fuel - 1, t.val.func, r.val + t.val.bound, t.world);
      }
    }
  }

  lemma {:induction false} FailsSelfIsErr(p: Program, sc: Scope, fuel: nat, e: Expr, env: Env, w: World)
    requires e.CallSelf? && Fails(p, sc, fuel, e, env, w).Some?
    ensures Eval(p, sc, fuel, e, env, w).Err?
    decreases fuel, 0, e, 0
  {
    if FailsAll(p, sc, fuel, e.args, env, w).Some? {
      FailsAllIsErr(p, sc, fuel, e.args, env, w);
    } else {
      var r := EvalAll(p, sc, fuel, e.args, env, w);
      InvokeFailsIsErr(p, fuel - 1, sc.func.value, r.val + Lookups(r.env, sc.consts.bound).value, r.world);
    }
  }

  lemma {:induction false} FailsAllIsErr(p: Program, sc: Scope, fuel: nat, es: seq<Expr>, env: Env, w: World)
    requires FailsAll(p, sc, fuel, es, env, w).Some?
    ensures EvalAll(p, sc, fuel, es, env, w).Err?
    decreases fuel, 0, es
  {
    if Fails(p, sc, fuel, es[0], env, w).Some? {
      FailsIsErr(p, sc, fuel, es[0], env, w);
    } else {
      var r := Eval(p, sc, fuel, es[0], env, w);
      FailsAllIsErr(p, sc, fuel, es[1..], r.env, r.world);
    }
  }

  lemma {:induction false} FailsCondsIsErr(p: Program, sc: Scope, fuel: nat, cs: seq<Expr>, env: Env, w: World)
    requires FailsConds(p, sc, fuel, cs, env, w).Some?
    ensures EvalConds(p, sc, fuel, cs, env, w).Err?
    decreases fuel, 0, cs
  {
    if Fails(p, sc, fuel, cs[0], env, w).Some? {
      FailsIsErr(p, sc, fuel, cs[0], env, w);
    } else {
      var r := Eval(p, sc, fuel, cs[0], env, w);
      FailsCondsIsErr(p, sc, fuel, cs[1..], r.env, r.world);
    }
  }

  lemma {:induction false} InvokeFailsIsErr(p: Program, fuel: nat, f: FuncId, vals: seq<Value>, w: World)
    requires p.IsUser(f) && InvokeFails(p, fuel, f, vals, w).Some?
    ensures Invoke(p, fuel, f, vals, w).Err?
    decreases fuel, 1
  {
    var kind := p.funcs[f].kind;
    FailsIsErr(p, FuncScope(p, f), fuel, kind.body, BindInputs(kind.consts.Inputs(), vals), w);
  }

  // ----- Operands without code that cannot fail -----

  /** No call of a function with a body, no division and nothing that fails stands in e. */
  predicate NeverFails(p: Program, e: Expr)
    decreases e
  {
    match e
    case FailNode => false
    case CallDyn(_, _, _) => false
    case CallSelf(_) => false
    case Call(f, args) => f < |p.funcs| && IsHarmless(p.funcs[f].kind) && AllNeverFail(p, args)
    case Assign(_, init) => NeverFails(p, init)
    case Group(es) => AllNeverFail(p, es)
    case Switch(cs, bs) => AllNeverFail(p, cs) && AllNeverFail(p, bs)
    case Closure(_, args) => AllNeverFail(p, args)
    case Field(_, lhs, _) => NeverFails(p, lhs)
    case UnionCheck(_, lhs, _) => NeverFails(p, lhs)
    case UnionGet(_, lhs, _, _) => NeverFails(p, lhs)
    case _ => true
  }

  predicate AllNeverFail(p: Program, es: seq<Expr>)
    decreases es
  {
    es == [] || (NeverFails(p, es[0]) && AllNeverFail(p, es[1..]))
  }

  predicate IsHarmless(kind: FuncKind) {
    !kind.User? && !kind.Fail? && !(kind.Binary? && (kind.bop.DivInt? || kind.bop.RemInt?))
  }

  /** Operands without code cannot fail. */
  predicate SkipsQuietly(p: Program, e: Expr)
    decreases e
  {
    match e
    case Call(f, args) => if IsTagUnion(p, f) then AllNeverFail(p, args) else AllSkipQuietly(p, args)
    case CallDyn(tgt, args, _) => SkipsQuietly(p, tgt) && AllSkipQuietly(p, args)
    case CallSelf(args) => AllSkipQuietly(p, args)
    case Assign(_, init) => SkipsQuietly(p, init)
    case Group(es) => AllSkipQuietly(p, es)
    case Switch(cs, bs) => AllSkipQuietly(p, cs) && AllSkipQuietly(p, bs)
    case Closure(_, args) => AllSkipQuietly(p, args)
    case Field(_, lhs, _) => SkipsQuietly(p, lhs)
    case UnionCheck(_, lhs, _) => SkipsQuietly(p, lhs)
    case UnionGet(_, lhs, _, _) => SkipsQuietly(p, lhs)
    case _ => true
  }

  predicate AllSkipQuietly(p: Program, es: seq<Expr>)
    decreases es
  {
    es == [] || (SkipsQuietly(p, es[0]) && AllSkipQuietly(p, es[1..]))
  }

  /** In every pure function operands without code cannot fail. */
  predicate SkipsQuietlyAnywhere(p: Program) {
    forall f | 0 <= f < |p.funcs| :: FuncSkipsQuietly(p, f)
  }

  predicate FuncSkipsQuietly(p: Program, f: FuncId) {
    p.IsUser(f) && !p.funcs[f].isAction ==> SkipsQuietly(p, p.funcs[f].kind.body)
  }

  lemma AllSkipQuietlyAt(p: Program, es: seq<Expr>, i: nat)
    requires AllSkipQuietly(p, es) && i < |es|
    ensures SkipsQuietly(p, es[i])
  {
    if i > 0 { AllSkipQuietlyAt(p, es[1..], i - 1); }
  }

  lemma AllNeverFailAt(p: Program, es: seq<Expr>, i: nat)
    requires AllNeverFail(p, es) && i < |es|
    ensures NeverFails(p, es[i])
  {
    if i > 0 { AllNeverFailAt(p, es[1..], i - 1); }
  }

  lemma {:induction false} NeverFailsIsRight(p: Program, sc: Scope, fuel: nat, e: Expr, env: Env, w: World)
    requires NeverFails(p, e)
    ensures Fails(p, sc, fuel, e, env, w).None?
    decreases e
  {
    match e
    case Assign(_, init) => NeverFailsIsRight(p, sc, fuel, init, env, w);
    case Group(es) => AllNeverFailIsRight(p, sc, fuel, es, env, w);
    case Switch(cs, bs) =>
      NoneFails(p, sc, fuel, cs, env, w);
      var r := EvalConds(p, sc, fuel, cs, env, w);
      if r.Ok? && r.val < |bs| {
        AllNeverFailAt(p, bs, r.val);
        NeverFailsIsRight(p, sc, fuel, bs[r.val], r.env, r.world);
      }
    case Call(_, args) => AllNeverFailIsRight(p, sc, fuel, args, env, w);
    case Closure(_, args) => AllNeverFailIsRight(p, sc, fuel, args, env, w);
    case Field(_, lhs, _) => NeverFailsIsRight(p, sc, fuel, lhs, env, w);
    case UnionCheck(_, lhs, _) => NeverFailsIsRight(p, sc, fuel, lhs, env, w);
    case UnionGet(_, lhs, _, _) => NeverFailsIsRight(p, sc, fuel, lhs, env, w);
    case _ =>
  }

  lemma {:induction false} AllNeverFailIsRight(p: Program, sc: Scope, fuel: nat, es: seq<Expr>, env: Env, w: World)
    requires AllNeverFail(p, es)
    ensures FailsAll(p, sc, fuel, es, env, w).None?
    decreases es
  {
    if es != [] {
      NeverFailsIsRight(p, sc, fuel, es[0], env, w);
      var r := Eval(p, sc, fuel, es[0], env, w);
      if r.Ok? { AllNeverFailIsRight(p, sc, fuel, es[1..], r.env, r.world); }
    }
  }

  lemma {:induction false} NoneFails(p: Program, sc: Scope, fuel: nat, cs: seq<Expr>, env: Env, w: World)
    requires AllNeverFail(p, cs)
    ensures FailsConds(p, sc, fuel, cs, env, w).None?
    decreases cs
  {
    if cs != [] {
      NeverFailsIsRight(p, sc, fuel, cs[0], env, w);
      var r := Eval(p, sc, fuel, cs[0], env, w);
      if r.Ok? { NoneFails(p, sc, fuel, cs[1..], r.env, r.world); }
    }
  }
}
