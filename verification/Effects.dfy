/** When an expression may be evaluated somewhere else instead: expressions without side effects give
    the same value in any larger environment and any world, and keep both. */
module Effects {
  import opened Lang
  import opened Trees
  import opened Purity

  /** Calls an action or, through a delegate or a self-call, may do so. */
  predicate ActsIn(p: Program, e: Expr, selfActs: bool)
    decreases Size(e), 0
  {
    || (e.Call? && e.func < |p.funcs| && p.funcs[e.func].isAction)
    || (e.CallDyn? && e.act)
    || (e.CallSelf? && selfActs)
    || ActsInAny(p, Kids(e), selfActs)
  }

  predicate ActsInAny(p: Program, es: seq<Expr>, selfActs: bool)
    decreases SizeAll(es), 1
  {
    es != [] && (ActsIn(p, es[0], selfActs) || ActsInAny(p, es[1..], selfActs))
  }

  /** Nothing in e can be observed from outside but its value. */
  predicate Movable(p: Program, sc: Scope, e: Expr) {
    !Declares(e) && !ActsIn(p, e, sc.isAction)
  }

  predicate AllMovable(p: Program, sc: Scope, es: seq<Expr>) {
    !DeclaresAny(es) && !ActsInAny(p, es, sc.isAction)
  }

  lemma MovableKids(p: Program, sc: Scope, e: Expr)
    requires Movable(p, sc, e)
    ensures AllMovable(p, sc, Kids(e))
  {
    match e
    case Switch(cs, bs) => DeclaresCat(cs, bs);
    case CallDyn(tgt, args, _) => DeclaresCat([tgt], args);
    case _ =>
  }

  lemma DeclaresCat(a: seq<Expr>, b: seq<Expr>)
    ensures DeclaresAny(a + b) <==> DeclaresAny(a) || DeclaresAny(b)
  {
    if a == [] {
      assert a + b == b;
    } else {
      assert (a + b)[1..] == a[1..] + b;
      DeclaresCat(a[1..], b);
    }
  }

  lemma ActsCat(p: Program, a: seq<Expr>, b: seq<Expr>, selfActs: bool)
    ensures ActsInAny(p, a + b, selfActs) <==> ActsInAny(p, a, selfActs) || ActsInAny(p, b, selfActs)
    decreases a
  {
    if a == [] {
      assert a + b == b;
    } else {
      assert (a + b)[1..] == a[1..] + b;
      ActsCat(p, a[1..], b, selfActs);
    }
  }

  lemma MovableCat(p: Program, sc: Scope, a: seq<Expr>, b: seq<Expr>)
    ensures AllMovable(p, sc, a + b) <==> AllMovable(p, sc, a) && AllMovable(p, sc, b)
  {
    DeclaresCat(a, b);
    ActsCat(p, a, b, sc.isAction);
  }

  lemma MovableAt(p: Program, sc: Scope, es: seq<Expr>, i: nat)
    requires AllMovable(p, sc, es) && i < |es|
    ensures Movable(p, sc, es[i])
    decreases es
  {
    if i > 0 { MovableAt(p, sc, es[1..], i - 1); }
  }

  predicate Extends(env: Env, env2: Env) {
    forall id | id in env :: id in env2 && env2[id] == env[id]
  }

  // ----- Pure functions do not depend on the world -----

  lemma {:induction false} WorldFree(p: Program, sc: Scope, fuel: nat, e: Expr, env: Env, w: World, w2: World)
    requires ScopeOk(p, sc) && !sc.isAction && Eval(p, sc, fuel, e, env, w).Ok?
    ensures var r := Eval(p, sc, fuel, e, env, w);
            Eval(p, sc, fuel, e, env, w2) == Ok(r.val, r.env, w2)
    decreases fuel, 0, e, 1
  {
    match e
    case Call(_, _) => CallWorldFree(p, sc, fuel, e, env, w, w2);
    case CallDyn(_, _, _) => DynWorldFree(p, sc, fuel, e, env, w, w2);
    case CallSelf(_) => SelfWorldFree(p, sc, fuel, e, env, w, w2);
    case _ => PlainWorldFree(p, sc, fuel, e, env, w, w2);
  }

  lemma {:induction false} PlainWorldFree(
    p: Program, sc: Scope, fuel: nat, e: Expr, env: Env, w: World, w2: World)
    requires !e.Call? && !e.CallDyn? && !e.CallSelf? && ScopeOk(p, sc) && !sc.isAction && Eval(p, sc, fuel, e, env, w).Ok?
    ensures var r := Eval(p, sc, fuel, e, env, w);
            Eval(p, sc, fuel, e, env, w2) == Ok(r.val, r.env, w2)
    decreases fuel, 0, e, 0
  {
    PureKeepsWorld(p, sc, fuel, e, env, w);
    match e
    case Assign(_, init) => WorldFree(p, sc, fuel, init, env, w, w2);
    case Group(es) => WorldFreeAll(p, sc, fuel, es, env, w, w2);
    case Switch(cs, bs) =>
      WorldFreeConds(p, sc, fuel, cs, env, w, w2);
      var r := EvalConds(p, sc, fuel, cs, env, w);
      WorldFree(p, sc, fuel, bs[r.val], r.env, r.world, w2);
    case Closure(_, args) => WorldFreeAll(p, sc, fuel, args, env, w, w2);
    case Field(_, lhs, _) => WorldFree(p, sc, fuel, lhs, env, w, w2);
    case UnionCheck(_, lhs, _) => WorldFree(p, sc, fuel, lhs, env, w, w2);
    case UnionGet(_, lhs, _, _) => WorldFree(p, sc, fuel, lhs, env, w, w2);
    case _ =>
  }

  lemma {:induction false} CallWorldFree(
    p: Program, sc: Scope, fuel: nat, e: Expr, env: Env, w: World, w2: World)
    requires e.Call? && ScopeOk(p, sc) && !sc.isAction && Eval(p, sc, fuel, e, env, w).Ok?
    ensures var r := Eval(p, sc, fuel, e, env, w);
            Eval(p, sc, fuel, e, env, w2) == Ok(r.val, r.env, w2)
    decreases fuel, 0, e, 0
  {
    PureKeepsWorld(p, sc, fuel, e, env, w);
    WorldFreeAll(p, sc, fuel, e.args, env, w, w2);
    if p.IsUser(e.func) {
      var r := EvalAll(p, sc, fuel, e.args, env, w);
      InvokeWorldFree(p, fuel - 1, e.func, r.val, r.world, w2);
    }
  }

  lemma {:induction false} DynWorldFree(
    p: Program, sc: Scope, fuel: nat, e: Expr, env: Env, w: World, w2: World)
    requires e.CallDyn? && ScopeOk(p, sc) && !sc.isAction && Eval(p, sc, fuel, e, env, w).Ok?
    ensures var r := Eval(p, sc, fuel, e, env, w);
            Eval(p, sc, fuel, e, env, w2) == Ok(r.val, r.env, w2)
    decreases fuel, 0, e, 0
  {
    PureKeepsWorld(p, sc, fuel, e, env, w);
    WorldFreeAll(p, sc, fuel, e.args, env, w, w2);
    var r := EvalAll(p, sc, fuel, e.args, env, w);
    WorldFree(p, sc, fuel, e.tgt, r.env, r.world, w2);
    var t := Eval(p, sc, fuel, e.tgt, r.env, r.world);
    InvokeWorldFree(p, fuel - 1, t.val.func, r.val + t.val.bound, t.world, w2);
  }

  lemma {:induction false} SelfWorldFree(
    p: Program, sc: Scope, fuel: nat, e: Expr, env: Env, w: World, w2: World)
    requires e.CallSelf? && ScopeOk(p, sc) && !sc.isAction && Eval(p, sc, fuel, e, env, w).Ok?
    ensures var r := Eval(p, sc, fuel, e, env, w);
            Eval(p, sc, fuel, e, env, w2) == Ok(r.val, r.env, w2)
    decreases fuel, 0, e, 0
  {
    PureKeepsWorld(p, sc, fuel, e, env, w);
    WorldFreeAll(p, sc, fuel, e.args, env, w, w2);
    var r := EvalAll(p, sc, fuel, e.args, env, w);
    InvokeWorldFree(p, fuel - 1, sc.func.value, r.val + Lookups(r.env, sc.consts.bound).value, r.world, w2);
  }

  lemma {:induction false} WorldFreeAll(
    p: Program, sc: Scope, fuel: nat, es: seq<Expr>, env: Env, w: World, w2: World)
    requires ScopeOk(p, sc) && !sc.isAction && EvalAll(p, sc, fuel, es, env, w).Ok?
    ensures var r := EvalAll(p, sc, fuel, es, env, w);
            EvalAll(p, sc, fuel, es, env, w2) == Ok(r.val, r.env, w2)
    decreases fuel, 0, es
  {
    if es != [] {
      WorldFree(p, sc, fuel, es[0], env, w, w2);
      var r := Eval(p, sc, fuel, es[0], env, w);
      WorldFreeAll(p, sc, fuel, es[1..], r.env, r.world, w2);
    }
  }

  lemma {:induction false} WorldFreeConds(
    p: Program, sc: Scope, fuel: nat, cs: seq<Expr>, env: Env, w: World, w2: World)
    requires ScopeOk(p, sc) && !sc.isAction && EvalConds(p, sc, fuel, cs, env, w).Ok?
    ensures var r := EvalConds(p, sc, fuel, cs, env, w);
            EvalConds(p, sc, fuel, cs, env, w2) == Ok(r.val, r.env, w2)
    decreases fuel, 0, cs
  {
    if cs != [] {
      WorldFree(p, sc, fuel, cs[0], env, w, w2);
      var r := Eval(p, sc, fuel, cs[0], env, w);
      if r.val.i == 0 { WorldFreeConds(p, sc, fuel, cs[1..], r.env, r.world, w2); }
    }
  }

  lemma {:induction false} InvokeWorldFree(p: Program, fuel: nat, f: FuncId, vals: seq<Value>, w: World, w2: World)
    requires p.IsUser(f) && !p.funcs[f].isAction && Invoke(p, fuel, f, vals, w).Ok?
    ensures var r := Invoke(p, fuel, f, vals, w);
            Invoke(p, fuel, f, vals, w2) == Ok(r.val, r.env, w2)
    decreases fuel, 1
  {
    var kind := p.funcs[f].kind;
    WorldFree(p, FuncScope(p, f), fuel, kind.body, BindInputs(kind.consts.Inputs(), vals), w, w2);
  }

  // ----- Movable expressions -----

  lemma {:induction false} Anywhere(
    p: Program, sc: Scope, fuel: nat, e: Expr, env: Env, w: World, env2: Env, w2: World)
    requires ScopeOk(p, sc) && Movable(p, sc, e) && Extends(env, env2)
    requires Eval(p, sc, fuel, e, env, w).Ok?
    ensures Eval(p, sc, fuel, e, env, w).env == env && Eval(p, sc, fuel, e, env, w).world == w
    ensures Eval(p, sc, fuel, e, env2, w2) == Ok(Eval(p, sc, fuel, e, env, w).val, env2, w2)
    decreases fuel, 0, e, 1
  {
    match e
    case Switch(_, _) => SwitchAnywhere(p, sc, fuel, e, env, w, env2, w2);
    case Call(_, _) => CallAnywhere(p, sc, fuel, e, env, w, env2, w2);
    case CallDyn(_, _, _) => DynAnywhere(p, sc, fuel, e, env, w, env2, w2);
    case CallSelf(_) => SelfAnywhere(p, sc, fuel, e, env, w, env2, w2);
    case _ => PlainAnywhere(p, sc, fuel, e, env, w, env2, w2);
  }

  lemma {:induction false} PlainAnywhere(
    p: Program, sc: Scope, fuel: nat, e: Expr, env: Env, w: World, env2: Env, w2: World)
    requires !e.Switch? && !e.Call? && !e.CallDyn? && !e.CallSelf? && ScopeOk(p, sc) && Movable(p, sc, e) && Extends(env, env2)
    requires Eval(p, sc, fuel, e, env, w).Ok?
    ensures Eval(p, sc, fuel, e, env, w).env == env && Eval(p, sc, fuel, e, env, w).world == w
    ensures Eval(p, sc, fuel, e, env2, w2) == Ok(Eval(p, sc, fuel, e, env, w).val, env2, w2)
    decreases fuel, 0, e, 0
  {
    MovableKids(p, sc, e);
    match e
    case Group(es) => AllAnywhere(p, sc, fuel, es, env, w, env2, w2);
    case Closure(_, args) => AllAnywhere(p, sc, fuel, args, env, w, env2, w2);
    case Field(_, lhs, _) => Anywhere(p, sc, fuel, lhs, env, w, env2, w2);
    case UnionCheck(_, lhs, _) => Anywhere(p, sc, fuel, lhs, env, w, env2, w2);
    case _ =>
  }

  lemma {:induction false} SwitchAnywhere(
    p: Program, sc: Scope, fuel: nat, e: Expr, env: Env, w: World, env2: Env, w2: World)
    requires e.Switch? && ScopeOk(p, sc) && Movable(p, sc, e) && Extends(env, env2)
    requires Eval(p, sc, fuel, e, env, w).Ok?
    ensures Eval(p, sc, fuel, e, env, w).env == env && Eval(p, sc, fuel, e, env, w).world == w
    ensures Eval(p, sc, fuel, e, env2, w2) == Ok(Eval(p, sc, fuel, e, env, w).val, env2, w2)
    decreases fuel, 0, e, 0
  {
    MovableKids(p, sc, e);
    var cs, bs := e.conds, e.branches;
    MovableCat(p, sc, cs, bs);
    CondsAnywhere(p, sc, fuel, cs, env, w, env2, w2);
    var k := EvalConds(p, sc, fuel, cs, env, w).val;
    MovableAt(p, sc, bs, k);
    Anywhere(p, sc, fuel, bs[k], env, w, env2, w2);
  }

  lemma {:induction false} CallAnywhere(
    p: Program, sc: Scope, fuel: nat, e: Expr, env: Env, w: World, env2: Env, w2: World)
    requires e.Call? && ScopeOk(p, sc) && Movable(p, sc, e) && Extends(env, env2)
    requires Eval(p, sc, fuel, e, env, w).Ok?
    ensures Eval(p, sc, fuel, e, env, w).env == env && Eval(p, sc, fuel, e, env, w).world == w
    ensures Eval(p, sc, fuel, e, env2, w2) == Ok(Eval(p, sc, fuel, e, env, w).val, env2, w2)
    decreases fuel, 0, e, 0
  {
    MovableKids(p, sc, e);
    AllAnywhere(p, sc, fuel, e.args, env, w, env2, w2);
    if p.IsUser(e.func) { InvokeAnywhere(p, fuel - 1, e.func, EvalAll(p, sc, fuel, e.args, env, w).val, w, w2); }
  }

  lemma {:induction false} DynAnywhere(
    p: Program, sc: Scope, fuel: nat, e: Expr, env: Env, w: World, env2: Env, w2: World)
    requires e.CallDyn? && ScopeOk(p, sc) && Movable(p, sc, e) && Extends(env, env2)
    requires Eval(p, sc, fuel, e, env, w).Ok?
    ensures Eval(p, sc, fuel, e, env, w).env == env && Eval(p, sc, fuel, e, env, w).world == w
    ensures Eval(p, sc, fuel, e, env2, w2) == Ok(Eval(p, sc, fuel, e, env, w).val, env2, w2)
    decreases fuel, 0, e, 0
  {
    MovableKids(p, sc, e);
    MovableCat(p, sc, [e.tgt], e.args);
    AllAnywhere(p, sc, fuel, e.args, env, w, env2, w2);
    Anywhere(p, sc, fuel, e.tgt, env, w, env2, w2);
    var vs, t := EvalAll(p, sc, fuel, e.args, env, w).val, Eval(p, sc, fuel, e.tgt, env, w).val;
    InvokeAnywhere(p, fuel - 1, t.func, vs + t.bound, w, w2);
  }

  lemma {:induction false} SelfAnywhere(
    p: Program, sc: Scope, fuel: nat, e: Expr, env: Env, w: World, env2: Env, w2: World)
    requires e.CallSelf? && ScopeOk(p, sc) && Movable(p, sc, e) && Extends(env, env2)
    requires Eval(p, sc, fuel, e, env, w).Ok?
    ensures Eval(p, sc, fuel, e, env, w).env == env && Eval(p, sc, fuel, e, env, w).world == w
    ensures Eval(p, sc, fuel, e, env2, w2) == Ok(Eval(p, sc, fuel, e, env, w).val, env2, w2)
    decreases fuel, 0, e, 0
  {
    MovableKids(p, sc, e);
    AllAnywhere(p, sc, fuel, e.args, env, w, env2, w2);
    var bs := Lookups(env, sc.consts.bound).value;
    assert Lookups(env2, sc.consts.bound).Some? && Lookups(env2, sc.consts.bound).value == bs;
    InvokeAnywhere(p, fuel - 1, sc.func.value, EvalAll(p, sc, fuel, e.args, env, w).val + bs, w, w2);
  }

  lemma {:induction false} InvokeAnywhere(p: Program, fuel: nat, f: FuncId, vals: seq<Value>, w: World, w2: World)
    requires p.IsUser(f) && !p.funcs[f].isAction && Invoke(p, fuel, f, vals, w).Ok?
    ensures Invoke(p, fuel, f, vals, w).world == w
    ensures Invoke(p, fuel, f, vals, w2).Ok? && Invoke(p, fuel, f, vals, w2).world == w2
    ensures Invoke(p, fuel, f, vals, w2).val == Invoke(p, fuel, f, vals, w).val
  {
    PureInvoke(p, fuel, f, vals, w);
    InvokeWorldFree(p, fuel, f, vals, w, w2);
  }

  lemma {:induction false} AllAnywhere(
    p: Program, sc: Scope, fuel: nat, es: seq<Expr>, env: Env, w: World, env2: Env, w2: World)
    requires ScopeOk(p, sc) && AllMovable(p, sc, es) && Extends(env, env2)
    requires EvalAll(p, sc, fuel, es, env, w).Ok?
    ensures EvalAll(p, sc, fuel, es, env, w).env == env && EvalAll(p, sc, fuel, es, env, w).world == w
    ensures EvalAll(p, sc, fuel, es, env2, w2) == Ok(EvalAll(p, sc, fuel, es, env, w).val, env2, w2)
    decreases fuel, 0, es
  {
    if es != [] {
      Anywhere(p, sc, fuel, es[0], env, w, env2, w2);
      AllAnywhere(p, sc, fuel, es[1..], env, w, env2, w2);
    }
  }

  lemma {:induction false} CondsAnywhere(
    p: Program, sc: Scope, fuel: nat, cs: seq<Expr>, env: Env, w: World, env2: Env, w2: World)
    requires ScopeOk(p, sc) && AllMovable(p, sc, cs) && Extends(env, env2)
    requires EvalConds(p, sc, fuel, cs, env, w).Ok?
    ensures EvalConds(p, sc, fuel, cs, env, w).env == env && EvalConds(p, sc, fuel, cs, env, w).world == w
    ensures EvalConds(p, sc, fuel, cs, env2, w2) == Ok(EvalConds(p, sc, fuel, cs, env, w).val, env2, w2)
    decreases fuel, 0, cs
  {
    if cs != [] {
      Anywhere(p, sc, fuel, cs[0], env, w, env2, w2);
      var r := Eval(p, sc, fuel, cs[0], env, w);
      if r.val.i == 0 { CondsAnywhere(p, sc, fuel, cs[1..], env, w, env2, w2); }
    }
  }

  // ----- Environments only grow -----

  /** From env to env2 only constants in `ids` have been added. */
  predicate Grows(env: Env, env2: Env, ids: set<ConstId>) {
    Extends(env, env2) && forall id | id in env2 :: id in env || id in ids
  }

  predicate NoneIn(ids: set<ConstId>, env: Env) {
    forall id | id in ids :: id !in env
  }

  lemma GrowsTrans(a: Env, b: Env, c: Env, x: set<ConstId>, y: set<ConstId>)
    requires Grows(a, b, x) && Grows(b, c, y)
    ensures Grows(a, c, x + y)
  {}

  lemma StillNone(env: Env, env2: Env, x: set<ConstId>, y: set<ConstId>)
    requires Grows(env, env2, x) && NoneIn(y, env) && x !! y
    ensures NoneIn(y, env2)
  {}

  // ----- Only assigned constants change -----

  /** Outside of `ids` the environments are the same. */
  predicate Touches(env: Env, env2: Env, ids: set<ConstId>) {
    && (forall id | id in env && id !in ids :: id in env2 && env2[id] == env[id])
    && (forall id | id in env2 && id !in ids :: id in env)
  }

  lemma {:induction false} EvalTouches(p: Program, sc: Scope, fuel: nat, e: Expr, env: Env, w: World)
    requires Eval(p, sc, fuel, e, env, w).Ok?
    ensures Touches(env, Eval(p, sc, fuel, e, env, w).env, Assigned(e))
    decreases Size(e), 0
  {
    assert Assigned(e) == OwnAssigned(e) + AssignedAll(Kids(e));
    match e
    case Assign(_, init) =>
      AssignedOne(init);
      EvalTouches(p, sc, fuel, init, env, w);
    case Group(es) => EvalAllTouches(p, sc, fuel, es, env, w);
    case Switch(cs, bs) =>
      AssignedAllCat(cs, bs);
      EvalCondsTouches(p, sc, fuel, cs, env, w);
      var r := EvalConds(p, sc, fuel, cs, env, w);
      AssignedAt(bs, r.val);
      SizeAt(bs, r.val);
      EvalTouches(p, sc, fuel, bs[r.val], r.env, r.world);
    case Call(_, args) => EvalAllTouches(p, sc, fuel, args, env, w);
    case CallDyn(tgt, args, _) =>
      AssignedAllCat([tgt], args);
      AssignedOne(tgt);
      EvalAllTouches(p, sc, fuel, args, env, w);
      var r := EvalAll(p, sc, fuel, args, env, w);
      EvalTouches(p, sc, fuel, tgt, r.env, r.world);
    case CallSelf(args) => EvalAllTouches(p, sc, fuel, args, env, w);
    case Closure(_, args) => EvalAllTouches(p, sc, fuel, args, env, w);
    case Field(_, lhs, _) => AssignedOne(lhs); EvalTouches(p, sc, fuel, lhs, env, w);
    case UnionCheck(_, lhs, _) => AssignedOne(lhs); EvalTouches(p, sc, fuel, lhs, env, w);
    case UnionGet(_, lhs, _, _) => AssignedOne(lhs); EvalTouches(p, sc, fuel, lhs, env, w);
    case _ =>
  }

  lemma AssignedOne(e: Expr)
    ensures AssignedAll([e]) == Assigned(e)
  {
    assert [e][1..] == [];
  }

  lemma SizeAt(es: seq<Expr>, i: nat)
    requires i < |es|
    ensures Size(es[i]) <= SizeAll(es)
  {
    if i > 0 { SizeAt(es[1..], i - 1); }
  }

  lemma {:induction false} EvalAllTouches(p: Program, sc: Scope, fuel: nat, es: seq<Expr>, env: Env, w: World)
    requires EvalAll(p, sc, fuel, es, env, w).Ok?
    ensures Touches(env, EvalAll(p, sc, fuel, es, env, w).env, AssignedAll(es))
    decreases SizeAll(es), 1
  {
    if es != [] {
      EvalTouches(p, sc, fuel, es[0], env, w);
      var r := Eval(p, sc, fuel, es[0], env, w);
      EvalAllTouches(p, sc, fuel, es[1..], r.env, r.world);
    }
  }

  lemma {:induction false} EvalCondsTouches(p: Program, sc: Scope, fuel: nat, cs: seq<Expr>, env: Env, w: World)
    requires EvalConds(p, sc, fuel, cs, env, w).Ok?
    ensures Touches(env, EvalConds(p, sc, fuel, cs, env, w).env, AssignedAll(cs))
    decreases SizeAll(cs), 1
  {
    if cs != [] {
      EvalTouches(p, sc, fuel, cs[0], env, w);
      var r := Eval(p, sc, fuel, cs[0], env, w);
      if r.val.i == 0 { EvalCondsTouches(p, sc, fuel, cs[1..], r.env, r.world); }
    }
  }

  // ----- More fuel never hurts -----

  lemma {:induction false} MoreFuel(p: Program, sc: Scope, fuel: nat, e: Expr, env: Env, w: World)
    requires Eval(p, sc, fuel, e, env, w).Ok?
    ensures Eval(p, sc, fuel + 1, e, env, w) == Eval(p, sc, fuel, e, env, w)
    decreases fuel, 0, e
  {
    hide HasType, Intrinsic, EvalAll, EvalConds, Lookups;
    match e
    case Assign(_, init) => MoreFuel(p, sc, fuel, init, env, w);
    case Group(es) => MoreFuelAll(p, sc, fuel, es, env, w);
    case Switch(cs, bs) =>
      MoreFuelConds(p, sc, fuel, cs, env, w);
      var r := EvalConds(p, sc, fuel, cs, env, w);
      MoreFuel(p, sc, fuel, bs[r.val], r.env, r.world);
    case Call(f, args) =>
      MoreFuelAll(p, sc, fuel, args, env, w);
      var r := EvalAll(p, sc, fuel, args, env, w);
      if p.IsUser(f) { MoreFuelInvoke(p, fuel - 1, f, r.val, r.world); }
    case CallDyn(tgt, args, _) =>
      MoreFuelAll(p, sc, fuel, args, env, w);
      var r := EvalAll(p, sc, fuel, args, env, w);
      MoreFuel(p, sc, fuel, tgt, r.env, r.world);
      var t := Eval(p, sc, fuel, tgt, r.env, r.world);
      MoreFuelInvoke(p, fuel - 1, t.val.func, r.val + t.val.bound, t.world);
    case CallSelf(args) =>
      MoreFuelAll(p, sc, fuel, args, env, w);
      var r := EvalAll(p, sc, fuel, args, env, w);
      MoreFuelInvoke(p, fuel - 1, sc.func.value, r.val + Lookups(r.env, sc.consts.bound).value, r.world);
    case Closure(_, args) => MoreFuelAll(p, sc, fuel, args, env, w);
    case Field(_, lhs, _) => MoreFuel(p, sc, fuel, lhs, env, w);
    case UnionCheck(_, lhs, _) => MoreFuel(p, sc, fuel, lhs, env, w);
    case UnionGet(_, lhs, _, _) => MoreFuel(p, sc, fuel, lhs, env, w);
    case _ =>
  }

  lemma {:induction false} MoreFuelAll(p: Program, sc: Scope, fuel: nat, es: seq<Expr>, env: Env, w: World)
    requires EvalAll(p, sc, fuel, es, env, w).Ok?
    ensures EvalAll(p, sc, fuel + 1, es, env, w) == EvalAll(p, sc, fuel, es, env, w)
    decreases fuel, 0, es
  {
    if es != [] {
      MoreFuel(p, sc, fuel, es[0], env, w);
      var r := Eval(p, sc, fuel, es[0], env, w);
      MoreFuelAll(p, sc, fuel, es[1..], r.env, r.world);
    }
  }

  lemma {:induction false} MoreFuelConds(p: Program, sc: Scope, fuel: nat, cs: seq<Expr>, env: Env, w: World)
    requires EvalConds(p, sc, fuel, cs, env, w).Ok?
    ensures EvalConds(p, sc, fuel + 1, cs, env, w) == EvalConds(p, sc, fuel, cs, env, w)
    decreases fuel, 0, cs
  {
    if cs != [] {
      MoreFuel(p, sc, fuel, cs[0], env, w);
      var r := Eval(p, sc, fuel, cs[0], env, w);
      if r.val.i == 0 { MoreFuelConds(p, sc, fuel, cs[1..], r.env, r.world); }
    }
  }

  lemma {:induction false} MoreFuelInvoke(p: Program, fuel: nat, f: FuncId, vals: seq<Value>, w: World)
    requires p.IsUser(f) && Invoke(p, fuel, f, vals, w).Ok?
    ensures Invoke(p, fuel + 1, f, vals, w) == Invoke(p, fuel, f, vals, w)
    decreases fuel, 1
  {
    var kind := p.funcs[f].kind;
    MoreFuel(p, FuncScope(p, f), fuel, kind.body, BindInputs(kind.consts.Inputs(), vals), w);
  }

  // ----- What depends on the types of a program only -----

  lemma {:induction false} TypesDecide(p: Program, p2: Program, v: Value, t: TypeId)
    requires p.types == p2.types
    ensures HasType(p2, v, t) == HasType(p, v, t)
    decreases v
  {
    if v.VUnion? { TypesDecide(p, p2, v.val, v.member); }
  }

  lemma SameIntrinsic(p: Program, p2: Program, kind: FuncKind, vals: seq<Value>, w: World)
    requires p.types == p2.types
    ensures Intrinsic(p2, kind, vals, w) == Intrinsic(p, kind, vals, w)
  {
    if kind.MakeUnion? && |vals| == 1 { TypesDecide(p, p2, vals[0], kind.member); }
  }

  // ----- Programs with other function bodies -----

  ghost predicate SameFuncs(p: Program, p2: Program) {
    && p2.types == p.types && |p2.funcs| == |p.funcs|
    && forall f | 0 <= f < |p.funcs| :: SameFunc(p.funcs[f], p2.funcs[f])
  }

  predicate SameFunc(a: FuncDecl, b: FuncDecl) {
    && a.isAction == b.isAction
    && (if a.kind.User? then b.kind.User? && SameInputs(a.kind.consts, b.kind.consts) else a.kind == b.kind)
  }

  predicate SameInputs(a: ConstTable, b: ConstTable) {
    b.inputs == a.inputs && b.bound == a.bound
  }

  /** With less than `fuel` nested calls every call that succeeds in p does the same in p2. */
  ghost predicate CallsAgree(p: Program, p2: Program, fuel: nat) {
    && SameFuncs(p, p2)
    && forall k: nat, f: FuncId, vals: seq<Value>, w: World ::
         k < fuel && p.IsUser(f) && Invoke(p, k, f, vals, w).Ok? ==> CallAgrees(p, p2, k, f, vals, w)
  }

  ghost predicate CallAgrees(p: Program, p2: Program, k: nat, f: FuncId, vals: seq<Value>, w: World)
    requires p.IsUser(f)
  {
    && p2.IsUser(f) && Invoke(p, k, f, vals, w).Ok? && Invoke(p2, k, f, vals, w).Ok?
    && Invoke(p2, k, f, vals, w).val == Invoke(p, k, f, vals, w).val
    && Invoke(p2, k, f, vals, w).world == Invoke(p, k, f, vals, w).world
  }

  /** An expression that is not rewritten means the same in a program whose calls agree. */
  lemma {:induction false} Unchanged(p: Program, p2: Program, sc: Scope, fuel: nat, e: Expr, env: Env, w: World)
    requires CallsAgree(p, p2, fuel) && Eval(p, sc, fuel, e, env, w).Ok?
    ensures Eval(p2, sc, fuel, e, env, w) == Eval(p, sc, fuel, e, env, w)
    decreases fuel, 0, e
  {
    match e
    case Assign(_, init) => Unchanged(p, p2, sc, fuel, init, env, w);
    case Group(es) => AllUnchanged(p, p2, sc, fuel, es, env, w);
    case Switch(cs, bs) =>
      CondsUnchanged(p, p2, sc, fuel, cs, env, w);
      var r := EvalConds(p, sc, fuel, cs, env, w);
      Unchanged(p, p2, sc, fuel, bs[r.val], r.env, r.world);
    case Call(f, args) =>
      AllUnchanged(p, p2, sc, fuel, args, env, w);
      var r := EvalAll(p, sc, fuel, args, env, w);
      OneCall(p, p2, fuel, f, r.val, r.world);
    case CallDyn(tgt, args, _) =>
      AllUnchanged(p, p2, sc, fuel, args, env, w);
      var r := EvalAll(p, sc, fuel, args, env, w);
      Unchanged(p, p2, sc, fuel, tgt, r.env, r.world);
      var t := Eval(p, sc, fuel, tgt, r.env, r.world);
      OneCall(p, p2, fuel, t.val.func, r.val + t.val.bound, t.world);
    case CallSelf(args) =>
      AllUnchanged(p, p2, sc, fuel, args, env, w);
      var r := EvalAll(p, sc, fuel, args, env, w);
      OneCall(p, p2, fuel, sc.func.value, r.val + Lookups(r.env, sc.consts.bound).value, r.world);
    case Closure(f, args) =>
      AllUnchanged(p, p2, sc, fuel, args, env, w);
      assert SameFunc(p.funcs[f], p2.funcs[f]);
    case LitFunc(f) => assert SameFunc(p.funcs[f], p2.funcs[f]);
    case Field(s, lhs, _) =>
      Unchanged(p, p2, sc, fuel, lhs, env, w);
      TypesDecide(p, p2, Eval(p, sc, fuel, lhs, env, w).val, s);
    case UnionCheck(u, lhs, _) =>
      Unchanged(p, p2, sc, fuel, lhs, env, w);
      TypesDecide(p, p2, Eval(p, sc, fuel, lhs, env, w).val, u);
    case UnionGet(u, lhs, _, _) =>
      Unchanged(p, p2, sc, fuel, lhs, env, w);
      TypesDecide(p, p2, Eval(p, sc, fuel, lhs, env, w).val, u);
    case _ =>
  }

  /** A call of any function once its arguments are known. */
  lemma OneCall(p: Program, p2: Program, fuel: nat, f: FuncId, vals: seq<Value>, w: World)
    requires CallsAgree(p, p2, fuel) && f < |p.funcs|
    ensures SameFunc(p.funcs[f], p2.funcs[f])
    ensures p.IsUser(f) && fuel > 0 && Invoke(p, fuel - 1, f, vals, w).Ok? ==> CallAgrees(p, p2, fuel - 1, f, vals, w)
    ensures !p.IsUser(f) ==> Intrinsic(p2, p2.funcs[f].kind, vals, w) == Intrinsic(p, p.funcs[f].kind, vals, w)
  {
    if !p.IsUser(f) { SameIntrinsic(p, p2, p.funcs[f].kind, vals, w); }
  }

  lemma {:induction false} AllUnchanged(
    p: Program, p2: Program, sc: Scope, fuel: nat, es: seq<Expr>, env: Env, w: World)
    requires CallsAgree(p, p2, fuel) && EvalAll(p, sc, fuel, es, env, w).Ok?
    ensures EvalAll(p2, sc, fuel, es, env, w) == EvalAll(p, sc, fuel, es, env, w)
    decreases fuel, 0, es
  {
    if es != [] {
      Unchanged(p, p2, sc, fuel, es[0], env, w);
      var r := Eval(p, sc, fuel, es[0], env, w);
      AllUnchanged(p, p2, sc, fuel, es[1..], r.env, r.world);
    }
  }

  lemma {:induction false} CondsUnchanged(
    p: Program, p2: Program, sc: Scope, fuel: nat, cs: seq<Expr>, env: Env, w: World)
    requires CallsAgree(p, p2, fuel) && EvalConds(p, sc, fuel, cs, env, w).Ok?
    ensures EvalConds(p2, sc, fuel, cs, env, w) == EvalConds(p, sc, fuel, cs, env, w)
    decreases fuel, 0, cs
  {
    if cs != [] {
      Unchanged(p, p2, sc, fuel, cs[0], env, w);
      var r := Eval(p, sc, fuel, cs[0], env, w);
      if r.val.i == 0 { CondsUnchanged(p, p2, sc, fuel, cs[1..], r.env, r.world); }
    }
  }

  /** Running the execute statements of a program, which no pass rewrites. */
  lemma {:induction false} ExecsUnchanged(p: Program, p2: Program, fuel: nat, execs: seq<ExecStmt>, w: World)
    requires CallsAgree(p, p2, fuel) && RunExecs(p, fuel, execs, w).Some?
    ensures RunExecs(p2, fuel, execs, w) == RunExecs(p, fuel, execs, w)
    decreases |execs|
  {
    if execs != [] {
      Unchanged(p, p2, ExecScope(execs[0]), fuel, execs[0].expr, map[], w);
      var r := Eval(p, ExecScope(execs[0]), fuel, execs[0].expr, map[], w);
      ExecsUnchanged(p, p2, fuel, execs[1..], r.world);
    }
  }

  // ----- Short lists -----

  lemma AllOfOne(p: Program, sc: Scope, fuel: nat, a: Expr, env: Env, w: World)
    requires Eval(p, sc, fuel, a, env, w).Ok?
    ensures var r := Eval(p, sc, fuel, a, env, w);
            EvalAll(p, sc, fuel, [a], env, w) == Ok([r.val], r.env, r.world)
  {
    assert [a][1..] == [];
    var v := Eval(p, sc, fuel, a, env, w).val;
    assert [v] + [] == [v];
  }

  lemma AllOfTwo(p: Program, sc: Scope, fuel: nat, a: Expr, b: Expr, env: Env, w: World)
    requires Eval(p, sc, fuel, a, env, w).Ok?
    requires var r := Eval(p, sc, fuel, a, env, w); Eval(p, sc, fuel, b, r.env, r.world).Ok?
    ensures var r := Eval(p, sc, fuel, a, env, w);
            var s := Eval(p, sc, fuel, b, r.env, r.world);
            EvalAll(p, sc, fuel, [a, b], env, w) == Ok([r.val, s.val], s.env, s.world)
  {
    var r := Eval(p, sc, fuel, a, env, w);
    AllOfOne(p, sc, fuel, b, r.env, r.world);
    assert [a, b][1..] == [b];
    var s := Eval(p, sc, fuel, b, r.env, r.world);
    assert [r.val] + [s.val] == [r.val, s.val];
  }
}
