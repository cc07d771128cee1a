/** Expressions that declare nothing keep the environment, and pure scopes keep the world. */
module Purity {
  import opened Lang

  /** Some constant is assigned inside e. */
  predicate Declares(e: Expr)
    decreases e
  {
    match e
    case Assign(_, _) => true
    case UnionGet(_, _, _, _) => true
    case Group(es) => DeclaresAny(es)
    case Switch(cs, bs) => DeclaresAny(cs) || DeclaresAny(bs)
    case Call(_, args) => DeclaresAny(args)
    case CallDyn(tgt, args, _) => Declares(tgt) || DeclaresAny(args)
    case CallSelf(args) => DeclaresAny(args)
    case Closure(_, args) => DeclaresAny(args)
    case Field(_, lhs, _) => Declares(lhs)
    case UnionCheck(_, lhs, _) => Declares(lhs)
    case _ => false
  }

  predicate DeclaresAny(es: seq<Expr>)
    decreases es
  {
    es != [] && (Declares(es[0]) || DeclaresAny(es[1..]))
  }

  /** The scope of a function of the program, or of an execute statement, which may act. */
  ghost predicate ScopeOk(p: Program, sc: Scope) {
    if sc.func.Some? then p.IsUser(sc.func.value) && sc == FuncScope(p, sc.func.value) else sc.isAction
  }

  lemma {:induction false} KeepsEnv(p: Program, sc: Scope, fuel: nat, e: Expr, env: Env, w: World)
    requires Eval(p, sc, fuel, e, env, w).Ok? && !Declares(e)
    ensures Eval(p, sc, fuel, e, env, w).env == env
    decreases e
  {
    match e
    case Group(es) => KeepsEnvAll(p, sc, fuel, es, env, w);
    case Switch(cs, bs) =>
      KeepsEnvConds(p, sc, fuel, cs, env, w);
      var r := EvalConds(p, sc, fuel, cs, env, w);
      DeclaresAt(bs, r.val);
      KeepsEnv(p, sc, fuel, bs[r.val], env, r.world);
    case Call(f, args) => KeepsEnvAll(p, sc, fuel, args, env, w);
    case CallDyn(tgt, args, _) =>
      KeepsEnvAll(p, sc, fuel, args, env, w);
      KeepsEnv(p, sc, fuel, tgt, env, EvalAll(p, sc, fuel, args, env, w).world);
    case CallSelf(args) => KeepsEnvAll(p, sc, fuel, args, env, w);
    case Closure(_, args) => KeepsEnvAll(p, sc, fuel, args, env, w);
    case Field(_, lhs, _) => KeepsEnv(p, sc, fuel, lhs, env, w);
    case UnionCheck(_, lhs, _) => KeepsEnv(p, sc, fuel, lhs, env, w);
    case _ =>
  }

  lemma DeclaresAt(es: seq<Expr>, i: nat)
    requires !DeclaresAny(es) && i < |es|
    ensures !Declares(es[i])
  {
    if i > 0 { DeclaresAt(es[1..], i - 1); }
  }

  lemma {:induction false} KeepsEnvAll(p: Program, sc: Scope, fuel: nat, es: seq<Expr>, env: Env, w: World)
    requires EvalAll(p, sc, fuel, es, env, w).Ok? && !DeclaresAny(es)
    ensures EvalAll(p, sc, fuel, es, env, w).env == env
    decreases es
  {
    if es != [] {
      KeepsEnv(p, sc, fuel, es[0], env, w);
      KeepsEnvAll(p, sc, fuel, es[1..], env, Eval(p, sc, fuel, es[0], env, w).world);
    }
  }

  lemma {:induction false} KeepsEnvConds(p: Program, sc: Scope, fuel: nat, cs: seq<Expr>, env: Env, w: World)
    requires EvalConds(p, sc, fuel, cs, env, w).Ok? && !DeclaresAny(cs)
    ensures EvalConds(p, sc, fuel, cs, env, w).env == env
    decreases cs
  {
    if cs != [] {
      var r := Eval(p, sc, fuel, cs[0], env, w);
      KeepsEnv(p, sc, fuel, cs[0], env, w);
      if r.val.i == 0 { KeepsEnvConds(p, sc, fuel, cs[1..], env, r.world); }
    }
  }

  /** A pure scope performs no action and uses up no reply. */
  lemma {:induction false} PureKeepsWorld(p: Program, sc: Scope, fuel: nat, e: Expr, env: Env, w: World)
    requires ScopeOk(p, sc) && !sc.isAction && Eval(p, sc, fuel, e, env, w).Ok?
    ensures Eval(p, sc, fuel, e, env, w).world == w
    decreases fuel, 0, e
  {
    match e
    case Assign(_, init) => PureKeepsWorld(p, sc, fuel, init, env, w);
    case Group(es) => PureKeepsWorldAll(p, sc, fuel, es, env, w);
    case Switch(cs, bs) =>
      PureKeepsWorldConds(p, sc, fuel, cs, env, w);
      var r := EvalConds(p, sc, fuel, cs, env, w);
      PureKeepsWorld(p, sc, fuel, bs[r.val], r.env, w);
    case Call(f, args) =>
      PureKeepsWorldAll(p, sc, fuel, args, env, w);
      if p.IsUser(f) { PureInvoke(p, fuel - 1, f, EvalAll(p, sc, fuel, args, env, w).val, w); }
    case CallDyn(tgt, args, _) =>
      PureKeepsWorldAll(p, sc, fuel, args, env, w);
      var r := EvalAll(p, sc, fuel, args, env, w);
      PureKeepsWorld(p, sc, fuel, tgt, r.env, w);
      var t := Eval(p, sc, fuel, tgt, r.env, w);
      PureInvoke(p, fuel - 1, t.val.func, r.val + t.val.bound, w);
    case CallSelf(args) =>
      PureKeepsWorldAll(p, sc, fuel, args, env, w);
      var r := EvalAll(p, sc, fuel, args, env, w);
      PureInvoke(p, fuel - 1, sc.func.value, r.val + Lookups(r.env, sc.consts.bound).value, w);
    case Closure(_, args) => PureKeepsWorldAll(p, sc, fuel, args, env, w);
    case Field(_, lhs, _) => PureKeepsWorld(p, sc, fuel, lhs, env, w);
    case UnionCheck(_, lhs, _) => PureKeepsWorld(p, sc, fuel, lhs, env, w);
    case UnionGet(_, lhs, _, _) => PureKeepsWorld(p, sc, fuel, lhs, env, w);
    case _ =>
  }

  lemma {:induction false} PureKeepsWorldAll(
    p: Program, sc: Scope, fuel: nat, es: seq<Expr>, env: Env, w: World)
    requires ScopeOk(p, sc) && !sc.isAction && EvalAll(p, sc, fuel, es, env, w).Ok?
    ensures EvalAll(p, sc, fuel, es, env, w).world == w
    decreases fuel, 0, es
  {
    if es != [] {
      PureKeepsWorld(p, sc, fuel, es[0], env, w);
      PureKeepsWorldAll(p, sc, fuel, es[1..], Eval(p, sc, fuel, es[0], env, w).env, w);
    }
  }

  lemma {:induction false} PureKeepsWorldConds(
    p: Program, sc: Scope, fuel: nat, cs: seq<Expr>, env: Env, w: World)
    requires ScopeOk(p, sc) && !sc.isAction && EvalConds(p, sc, fuel, cs, env, w).Ok?
    ensures EvalConds(p, sc, fuel, cs, env, w).world == w
    decreases fuel, 0, cs
  {
    if cs != [] {
      PureKeepsWorld(p, sc, fuel, cs[0], env, w);
      var r := Eval(p, sc, fuel, cs[0], env, w);
      if r.val.i == 0 { PureKeepsWorldConds(p, sc, fuel, cs[1..], r.env, w); }
    }
  }

  lemma {:induction false} PureInvoke(p: Program, fuel: nat, f: FuncId, vals: seq<Value>, w: World)
    requires p.IsUser(f) && !p.funcs[f].isAction && Invoke(p, fuel, f, vals, w).Ok?
    ensures Invoke(p, fuel, f, vals, w).world == w
    decreases fuel, 1
  {
    var kind := p.funcs[f].kind;
    PureKeepsWorld(p, FuncScope(p, f), fuel, kind.body, BindInputs(kind.consts.Inputs(), vals), w);
  }
}
