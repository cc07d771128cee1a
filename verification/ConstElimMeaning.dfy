/** Const elimination preserves the meaning of programs. */
module ConstElimMeaning {
  import opened Lang
  import opened Trees
  import opened Purity
  import opened Effects
  import opened CallGraph
  import opened ConstElim

  // ----- The pass is a substitution -----

  type Replacement = map<ConstId, Expr>

  /** Drops the assignments of replaced constants from groups and replaces their uses. */
  function Subst(m: Replacement, e: Expr): Expr
    decreases Size(e), 0
  {
    match e
    case Group(es) => Regroup(SubstGroup(m, es))
    case ConstRef(id) => if id in m then m[id] else e
    case _ => WithKids(e, SubstAll(m, Kids(e)))
  }

  function SubstAll(m: Replacement, es: seq<Expr>): (r: seq<Expr>)
    ensures |r| == |es|
    decreases SizeAll(es), 1
  {
    if es == [] then [] else [Subst(m, es[0])] + SubstAll(m, es[1..])
  }

  predicate Dropped(m: Replacement, e: Expr, last: bool) {
    e.Assign? && !last && e.id in m
  }

  function SubstGroup(m: Replacement, es: seq<Expr>): seq<Expr>
    decreases SizeAll(es), 1
  {
    if es == [] then []
    else if Dropped(m, es[0], |es| == 1) then SubstGroup(m, es[1..])
    else [Subst(m, es[0])] + SubstGroup(m, es[1..])
  }

  /** Every replaced constant is assigned in groups, before the last element, and only there; its
      replacement is the substituted initialiser and has no side effect. */
  predicate Consistent(p: Program, m: Replacement, e: Expr)
    decreases Size(e), 0
  {
    if e.Group? then ConsistentGroup(p, m, e.exprs)
    else OwnAssigned(e) !! m.Keys && ConsistentAll(p, m, Kids(e))
  }

  predicate ConsistentAll(p: Program, m: Replacement, es: seq<Expr>)
    decreases SizeAll(es), 1
  {
    es == [] || (Consistent(p, m, es[0]) && ConsistentAll(p, m, es[1..]))
  }

  predicate ConsistentGroup(p: Program, m: Replacement, es: seq<Expr>)
    decreases SizeAll(es), 2
  {
    es == [] || (ConsistentElement(p, m, es[0], |es| == 1) && ConsistentGroup(p, m, es[1..]))
  }

  predicate ConsistentElement(p: Program, m: Replacement, e: Expr, last: bool)
    decreases Size(e), 1
  {
    if Dropped(m, e, last)
    then m[e.id] == Subst(m, e.init) && !HasSideEffect(p, m[e.id]) && Consistent(p, m, e.init)
    else Consistent(p, m, e)
  }

  predicate Includes(a: Replacement, b: Replacement) {
    forall id | id in a :: id in b && b[id] == a[id]
  }

  /** What a stretch of the pass did: constants assigned there, with initialisers free of side
      effects, went from the table of constants to the replacements. */
  ghost predicate Adds(p: Program, s: State, s1: State, ids: set<ConstId>) {
    && Includes(s.replace, s1.replace) && s1.replace.Keys <= s.replace.Keys + ids
    && (forall id | id in s1.replace :: id in s.replace || !HasSideEffect(p, s1.replace[id]))
    && SameInputs(s.consts, s1.consts)
    && (forall id :: s1.consts.Has(id) <==> s.consts.Has(id) && (id in s.replace || id !in s1.replace))
  }

  lemma {:induction false} PassAdds(p: Program, usage: map<ConstId, nat>, s: State, e: Expr)
    requires Single(e) && Assigned(e) !! s.replace.Keys + ToSet(s.consts.Inputs())
    ensures Adds(p, s, Rewritten(p, usage, s, e).1, Assigned(e))
    decreases Size(e), 0
  {
    match e
    case Group(es) => PassAddsGroup(p, usage, s, es);
    case ConstRef(_) =>
    case _ => PassAddsAll(p, usage, s, Kids(e));
  }

  lemma {:induction false} PassAddsAll(p: Program, usage: map<ConstId, nat>, s: State, es: seq<Expr>)
    requires SingleAll(es) && AssignedAll(es) !! s.replace.Keys + ToSet(s.consts.Inputs())
    ensures Adds(p, s, RewrittenAll(p, usage, s, es).1, AssignedAll(es))
    decreases SizeAll(es), 1
  {
    if es != [] {
      PassAdds(p, usage, s, es[0]);
      PassAddsAll(p, usage, Rewritten(p, usage, s, es[0]).1, es[1..]);
    }
  }

  lemma {:induction false} PassAddsGroup(p: Program, usage: map<ConstId, nat>, s: State, es: seq<Expr>)
    requires SingleAll(es) && AssignedAll(es) !! s.replace.Keys + ToSet(s.consts.Inputs())
    ensures Adds(p, s, RewrittenGroup(p, usage, s, es).1, AssignedAll(es))
    decreases SizeAll(es), 2
  {
    if es != [] {
      PassAddsElement(p, usage, s, es[0], |es| == 1);
      PassAddsGroup(p, usage, RewrittenElement(p, usage, s, es[0], |es| == 1).1, es[1..]);
    }
  }

  lemma {:induction false} PassAddsElement(p: Program, usage: map<ConstId, nat>, s: State, e: Expr, last: bool)
    requires Single(e) && Assigned(e) !! s.replace.Keys + ToSet(s.consts.Inputs())
    ensures Adds(p, s, RewrittenElement(p, usage, s, e, last).1, Assigned(e))
    decreases Size(e), 1
  {
    if e.Assign? {
      OneKid(e);
      PassAdds(p, usage, s, e.init);
    } else {
      PassAdds(p, usage, s, e);
    }
  }

  lemma OneKid(e: Expr)
    requires e.Assign?
    ensures Assigned(e) == {e.id} + Assigned(e.init) && (Single(e) ==> Single(e.init) && e.id !in Assigned(e.init))
  {
    assert Kids(e) == [e.init] && [e.init][1..] == [];
    assert AssignedAll([e.init]) == Assigned(e.init) + AssignedAll([]);
    AssignedAt([e.init], 0);
  }

  /** m agrees with the state about every constant seen so far. */
  predicate Final(m: Replacement, s: State, known: set<ConstId>) {
    Includes(s.replace, m) && m.Keys * known <= s.replace.Keys
  }

  /** With m the replacements of the finished pass, a stretch of the pass that starts in state s,
      after the constants `known` have been declared, is the substitution by m. */
  lemma {:induction false} PassIsSubst(
    p: Program, usage: map<ConstId, nat>, s: State, e: Expr, known: set<ConstId>, m: Replacement)
    requires Single(e) && Assigned(e) !! known && s.replace.Keys + ToSet(s.consts.Inputs()) <= known && Scoped(known, e)
    requires Final(m, Rewritten(p, usage, s, e).1, known + Assigned(e))
    ensures Rewritten(p, usage, s, e).0 == Subst(m, e) && Consistent(p, m, e)
    decreases Size(e), 0
  {
    match e
    case Group(es) => PassIsSubstGroup(p, usage, s, es, known, m);
    case ConstRef(id) => hide Assigned, Single;
    case _ =>
      NodeUnfold(p, usage, s, e, known, m);
      hide Erase, Final, Single, Scoped, Assigned, Rewritten, RewrittenAll;
      PassAddsAll(p, usage, s, Kids(e));
      var s1 := RewrittenAll(p, usage, s, Kids(e)).1;
      FinalKids(e, s, s1, known, m);
      PassIsSubstAll(p, usage, s, Kids(e), known, m);
  }

  lemma NodeUnfold(
    p: Program, usage: map<ConstId, nat>, s: State, e: Expr, known: set<ConstId>, m: Replacement)
    requires !e.Group? && !e.ConstRef? && Single(e) && Assigned(e) !! known && Scoped(known, e)
    ensures Assigned(e) == OwnAssigned(e) + AssignedAll(Kids(e)) && OwnAssigned(e) !! AssignedAll(Kids(e))
    ensures SingleAll(Kids(e)) && ScopedAll(known, Kids(e))
    ensures var (ks, s1) := RewrittenAll(p, usage, s, Kids(e)); Rewritten(p, usage, s, e) == (WithKids(e, ks), s1)
  {
    hide RewrittenAll;
  }

  /** Nothing a node assigns itself is replaced: only constants of its children are added. */
  lemma FinalKids(e: Expr, s: State, s1: State, known: set<ConstId>, m: Replacement)
    requires Final(m, s1, known + (OwnAssigned(e) + AssignedAll(Kids(e)))) && s.replace.Keys <= known
    requires OwnAssigned(e) !! AssignedAll(Kids(e)) && OwnAssigned(e) !! known
    requires s1.replace.Keys <= s.replace.Keys + AssignedAll(Kids(e))
    ensures OwnAssigned(e) !! m.Keys && Final(m, s1, known + AssignedAll(Kids(e)))
  {}

  lemma {:induction false} PassIsSubstAll(
    p: Program, usage: map<ConstId, nat>, s: State, es: seq<Expr>, known: set<ConstId>, m: Replacement)
    requires SingleAll(es) && AssignedAll(es) !! known && s.replace.Keys + ToSet(s.consts.Inputs()) <= known && ScopedAll(known, es)
    requires Final(m, RewrittenAll(p, usage, s, es).1, known + AssignedAll(es))
    ensures RewrittenAll(p, usage, s, es).0 == SubstAll(m, es) && ConsistentAll(p, m, es)
    decreases SizeAll(es), 1
  {
    if es != [] {
      var s1 := Rewritten(p, usage, s, es[0]).1;
      PassAdds(p, usage, s, es[0]);
      PassAddsAll(p, usage, s1, es[1..]);
      PassIsSubst(p, usage, s, es[0], known, m);
      PassIsSubstAll(p, usage, s1, es[1..], known + Assigned(es[0]), m);
    }
  }

  lemma {:induction false} PassIsSubstGroup(
    p: Program, usage: map<ConstId, nat>, s: State, es: seq<Expr>, known: set<ConstId>, m: Replacement)
    requires SingleAll(es) && AssignedAll(es) !! known && s.replace.Keys + ToSet(s.consts.Inputs()) <= known && ScopedAll(known, es)
    requires Final(m, RewrittenGroup(p, usage, s, es).1, known + AssignedAll(es))
    ensures RewrittenGroup(p, usage, s, es).0 == SubstGroup(m, es) && ConsistentGroup(p, m, es)
    decreases SizeAll(es), 2
  {
    if es != [] {
      var last := |es| == 1;
      var s1 := RewrittenElement(p, usage, s, es[0], last).1;
      PassAddsElement(p, usage, s, es[0], last);
      PassAddsGroup(p, usage, s1, es[1..]);
      PassIsSubstElement(p, usage, s, es[0], last, known, m);
      PassIsSubstGroup(p, usage, s1, es[1..], known + Assigned(es[0]), m);
    }
  }

  lemma {:induction false} PassIsSubstElement(
    p: Program, usage: map<ConstId, nat>, s: State, e: Expr, last: bool, known: set<ConstId>, m: Replacement)
    requires Single(e) && Assigned(e) !! known && s.replace.Keys + ToSet(s.consts.Inputs()) <= known && Scoped(known, e)
    requires Final(m, RewrittenElement(p, usage, s, e, last).1, known + Assigned(e))
    ensures RewrittenElement(p, usage, s, e, last).0 == (if Dropped(m, e, last) then [] else [Subst(m, e)])
    ensures ConsistentElement(p, m, e, last)
    decreases Size(e), 1
  {
    hide OwnAssigned, ActsIn, HasSideEffect;
    if e.Assign? {
      OneKid(e);
      var (init, s1) := Rewritten(p, usage, s, e.init);
      PassAdds(p, usage, s, e.init);
      PassIsSubst(p, usage, s, e.init, known, m);
      assert SubstAll(m, [e.init]) == [Subst(m, e.init)];
      assert ConsistentAll(p, m, [e.init]) by { assert [e.init][1..] == []; }
    } else {
      PassIsSubst(p, usage, s, e, known, m);
    }
  }

  // ----- The optimized program -----

  function Start(p: Program, f: FuncId): State
    requires p.IsUser(f)
  {
    State(map[], p.funcs[f].kind.consts, false)
  }

  /** The rewritten body of a function and the state the pass ends in. */
  function Pass(p: Program, usages: seq<map<ConstId, nat>>, f: FuncId): (Expr, State)
    requires p.IsUser(f) && f < |usages|
  {
    Rewritten(p, usages[f], Start(p, f), p.funcs[f].kind.body)
  }

  function OptimizedFunc(p: Program, usages: seq<map<ConstId, nat>>, f: FuncId): FuncDecl
    requires f < |p.funcs| <= |usages|
  {
    if p.IsUser(f) then
      var (e, s) := Pass(p, usages, f);
      FuncDecl(User(s.consts, e), p.funcs[f].isAction)
    else p.funcs[f]
  }

  /** Every function is rewritten, the execute statements are not. The counts of uses that decide
      which constants go do not matter to what follows, so they are left open. */
  function Optimized(p: Program, usages: seq<map<ConstId, nat>>): Program
    requires |p.funcs| <= |usages|
  {
    p.(funcs := seq(|p.funcs|, f requires 0 <= f < |p.funcs| => OptimizedFunc(p, usages, f)))
  }

  /** No replacement calls the function itself. */
  predicate NoSelves(m: Replacement) {
    forall id | id in m :: !CallsSelf(m[id])
  }

  /** What the pass relies on: constants are assigned once and used after that, and no action moves a
      call of itself. */
  ghost predicate Ready(p: Program, usages: seq<map<ConstId, nat>>, f: FuncId)
    requires f < |p.funcs| <= |usages|
  {
    p.IsUser(f) ==>
      var body, inputs := p.funcs[f].kind.body, ToSet(p.funcs[f].kind.consts.Inputs());
      && Single(body) && Assigned(body) !! inputs && Scoped(inputs, body)
      && (p.funcs[f].isAction ==> NoSelves(Pass(p, usages, f).1.replace))
  }

  ghost predicate AllReady(p: Program, usages: seq<map<ConstId, nat>>) {
    |p.funcs| <= |usages| && forall f | 0 <= f < |p.funcs| :: Ready(p, usages, f)
  }

  // ----- Evaluating the optimized program -----

  /** A scope of the program, the same scope of the optimized one and what was replaced there. */
  datatype Ctx = Ctx(p: Program, p2: Program, sc: Scope, sc2: Scope, m: Replacement)

  ghost predicate GoodCtx(c: Ctx) {
    && ScopeOk(c.p, c.sc) && ScopeOk(c.p2, c.sc2) && SameFuncs(c.p, c.p2)
    && c.sc2.func == c.sc.func && c.sc2.isAction == c.sc.isAction && SameInputs(c.sc.consts, c.sc2.consts)
    && (forall id | c.sc.consts.Has(id) && id !in c.m :: c.sc2.consts.Has(id))
    && (forall id | id in c.m :: Movable(c.p2, c.sc2, c.m[id]) && id !in c.sc.consts.Inputs())
  }

  /** x has the value v in this environment, in any world, and changes nothing. */
  ghost predicate Gives(c: Ctx, fuel: nat, x: Expr, env2: Env, v: Value) {
    forall w: World :: Eval(c.p2, c.sc2, fuel, x, env2, w) == Ok(v, env2, w)
  }

  /** Every replacement gives the value its constant would have now. */
  ghost predicate Holds(c: Ctx, fuel: nat, env: Env) {
    forall id | id in env && id in c.m :: Gives(c, fuel, c.m[id], env - c.m.Keys, env[id])
  }

  predicate Part(c: Ctx, e: Expr, env: Env) {
    Consistent(c.p, c.m, e) && Single(e) && NoneIn(Assigned(e), env)
  }

  predicate Parts(c: Ctx, es: seq<Expr>, env: Env) {
    ConsistentAll(c.p, c.m, es) && SingleAll(es) && NoneIn(AssignedAll(es), env)
  }

  lemma KidsParts(c: Ctx, e: Expr, env: Env)
    requires Part(c, e, env) && !e.Group?
    ensures Parts(c, Kids(e), env) && OwnAssigned(e) !! c.m.Keys && OwnAssigned(e) !! AssignedAll(Kids(e))
    ensures NoneIn(OwnAssigned(e), env) && Assigned(e) == OwnAssigned(e) + AssignedAll(Kids(e))
  {}

  lemma ConsistentCat(p: Program, m: Replacement, a: seq<Expr>, b: seq<Expr>)
    ensures ConsistentAll(p, m, a + b) <==> ConsistentAll(p, m, a) && ConsistentAll(p, m, b)
    decreases a
  {
    if a == [] {
      assert a + b == b;
    } else {
      assert (a + b)[1..] == a[1..] + b;
      ConsistentCat(p, m, a[1..], b);
    }
  }

  lemma PartsCat(c: Ctx, a: seq<Expr>, b: seq<Expr>, env: Env)
    requires Parts(c, a + b, env)
    ensures Parts(c, a, env) && Parts(c, b, env) && AssignedAll(a) !! AssignedAll(b)
    ensures AssignedAll(a + b) == AssignedAll(a) + AssignedAll(b)
  {
    ConsistentCat(c.p, c.m, a, b);
    SingleAllCat(a, b);
    AssignedAllCat(a, b);
  }

  lemma PartAt(c: Ctx, es: seq<Expr>, i: nat, env: Env)
    requires Parts(c, es, env) && i < |es|
    ensures Part(c, es[i], env) && Assigned(es[i]) <= AssignedAll(es)
    decreases es
  {
    if i > 0 { PartAt(c, es[1..], i - 1, env); }
  }

  lemma SubstCat(m: Replacement, a: seq<Expr>, b: seq<Expr>)
    ensures SubstAll(m, a + b) == SubstAll(m, a) + SubstAll(m, b)
    decreases a
  {
    if a == [] {
      assert a + b == b;
    } else {
      assert (a + b)[1..] == a[1..] + b;
      SubstCat(m, a[1..], b);
    }
  }

  lemma SubstAt(m: Replacement, es: seq<Expr>, i: nat)
    requires i < |es|
    ensures SubstAll(m, es)[i] == Subst(m, es[i])
    decreases es
  {
    if i > 0 { SubstAt(m, es[1..], i - 1); }
  }

  lemma SubstOne(m: Replacement, e: Expr)
    ensures SubstAll(m, [e]) == [Subst(m, e)]
  {
    assert [e][1..] == [];
  }

  /** The value of a replacement does not change while the environment grows. */
  lemma HoldsGrows(c: Ctx, fuel: nat, env: Env, env1: Env)
    requires GoodCtx(c) && Holds(c, fuel, env) && Extends(env, env1)
    requires forall id | id in env1 && id !in env :: id !in c.m
    ensures Holds(c, fuel, env1)
  {
    forall id | id in env1 && id in c.m ensures Gives(c, fuel, c.m[id], env1 - c.m.Keys, env1[id]) {
      var x, a, b := c.m[id], env - c.m.Keys, env1 - c.m.Keys;
      assert Gives(c, fuel, x, a, env[id]);
      forall w: World ensures Eval(c.p2, c.sc2, fuel, x, b, w) == Ok(env1[id], b, w) {
        Anywhere(c.p2, c.sc2, fuel, x, a, w, b, w);
      }
    }
  }

  // ----- The theorem -----

  /** e means the same before and after: same value, same actions, same constants but the replaced ones. */
  ghost predicate Agrees<T>(c: Ctx, fuel: nat, env: Env, ids: set<ConstId>, r: Result<T>, r2: Result<T>) {
    && r.Ok? && r2 == Ok(r.val, r.env - c.m.Keys, r.world)
    && Holds(c, fuel, r.env) && Grows(env, r.env, ids)
  }

  lemma {:induction false} Preserved(
    c: Ctx, usages: seq<map<ConstId, nat>>, fuel: nat, e: Expr, env: Env, w: World)
    requires AllReady(c.p, usages) && c.p2 == Optimized(c.p, usages) && GoodCtx(c)
    requires Part(c, e, env) && Holds(c, fuel, env) && Eval(c.p, c.sc, fuel, e, env, w).Ok?
    ensures Agrees(c, fuel, env, Assigned(e), Eval(c.p, c.sc, fuel, e, env, w),
                   Eval(c.p2, c.sc2, fuel, Subst(c.m, e), env - c.m.Keys, w))
    decreases fuel, 0, e, 2
  {
    hide AllReady, Optimized, GoodCtx, Parts, Part, Eval, Subst, Holds;
    match e
    case Assign(_, _) => PreservedAssign(c, usages, fuel, e, env, w);
    case Group(_) => PreservedGroupExpr(c, usages, fuel, e, env, w);
    case Switch(_, _) => PreservedSwitch(c, usages, fuel, e, env, w);
    case Call(_, _) => PreservedCall(c, usages, fuel, e, env, w);
    case CallDyn(_, _, _) => PreservedCallDyn(c, usages, fuel, e, env, w);
    case CallSelf(_) => PreservedCallSelf(c, usages, fuel, e, env, w);
    case _ => PreservedPlain(c, usages, fuel, e, env, w);
  }

  lemma {:induction false} PreservedAll(
    c: Ctx, usages: seq<map<ConstId, nat>>, fuel: nat, es: seq<Expr>, env: Env, w: World)
    requires AllReady(c.p, usages) && c.p2 == Optimized(c.p, usages) && GoodCtx(c)
    requires Parts(c, es, env) && Holds(c, fuel, env) && EvalAll(c.p, c.sc, fuel, es, env, w).Ok?
    ensures Agrees(c, fuel, env, AssignedAll(es), EvalAll(c.p, c.sc, fuel, es, env, w),
                   EvalAll(c.p2, c.sc2, fuel, SubstAll(c.m, es), env - c.m.Keys, w))
    decreases fuel, 0, es, 2
  {
    hide AllReady, Optimized, GoodCtx, Holds, Consistent, Single, Subst, Assigned, Eval;
    if es != [] {
      var r := Eval(c.p, c.sc, fuel, es[0], env, w);
      Preserved(c, usages, fuel, es[0], env, w);
      StillNone(env, r.env, Assigned(es[0]), AssignedAll(es[1..]));
      PreservedAll(c, usages, fuel, es[1..], r.env, r.world);
      var r1 := EvalAll(c.p, c.sc, fuel, es[1..], r.env, r.world);
      GrowsTrans(env, r.env, r1.env, Assigned(es[0]), AssignedAll(es[1..]));
      assert SubstAll(c.m, es)[1..] == SubstAll(c.m, es[1..]);
    }
  }

  lemma {:induction false} PreservedConds(
    c: Ctx, usages: seq<map<ConstId, nat>>, fuel: nat, cs: seq<Expr>, env: Env, w: World)
    requires AllReady(c.p, usages) && c.p2 == Optimized(c.p, usages) && GoodCtx(c)
    requires Parts(c, cs, env) && Holds(c, fuel, env) && EvalConds(c.p, c.sc, fuel, cs, env, w).Ok?
    ensures Agrees(c, fuel, env, AssignedAll(cs), EvalConds(c.p, c.sc, fuel, cs, env, w),
                   EvalConds(c.p2, c.sc2, fuel, SubstAll(c.m, cs), env - c.m.Keys, w))
    decreases fuel, 0, cs, 2
  {
    hide AllReady, Optimized, GoodCtx, Holds, Consistent, Single, Subst, Assigned, Eval;
    if cs != [] {
      var r := Eval(c.p, c.sc, fuel, cs[0], env, w);
      Preserved(c, usages, fuel, cs[0], env, w);
      assert SubstAll(c.m, cs)[1..] == SubstAll(c.m, cs[1..]);
      if r.val.i == 0 {
        StillNone(env, r.env, Assigned(cs[0]), AssignedAll(cs[1..]));
        PreservedConds(c, usages, fuel, cs[1..], r.env, r.world);
        var r1 := EvalConds(c.p, c.sc, fuel, cs[1..], r.env, r.world);
        GrowsTrans(env, r.env, r1.env, Assigned(cs[0]), AssignedAll(cs[1..]));
      }
    }
  }

  lemma {:induction false} PreservedAssign(
    c: Ctx, usages: seq<map<ConstId, nat>>, fuel: nat, e: Expr, env: Env, w: World)
    requires AllReady(c.p, usages) && c.p2 == Optimized(c.p, usages) && GoodCtx(c) && e.Assign?
    requires Part(c, e, env) && Holds(c, fuel, env) && Eval(c.p, c.sc, fuel, e, env, w).Ok?
    ensures Agrees(c, fuel, env, Assigned(e), Eval(c.p, c.sc, fuel, e, env, w),
                   Eval(c.p2, c.sc2, fuel, Subst(c.m, e), env - c.m.Keys, w))
    decreases fuel, 0, e, 0
  {
    KidsParts(c, e, env);
    PartAt(c, [e.init], 0, env);
    SubstOne(c.m, e.init);
    OneKid(e);
    assert Subst(c.m, e) == Assign(e.id, Subst(c.m, e.init));
    Preserved(c, usages, fuel, e.init, env, w);
    var r := Eval(c.p, c.sc, fuel, e.init, env, w);
    hide AllReady, Optimized, Holds, Part, Parts, Subst;
    StillNone(env, r.env, Assigned(e.init), {e.id});
    Stored(c, fuel, r.env, e.id, r.val);
  }

  /** Binding a constant that is not replaced. */
  lemma Stored(c: Ctx, fuel: nat, env: Env, id: ConstId, v: Value)
    requires GoodCtx(c) && Holds(c, fuel, env) && id !in env && id !in c.m
    ensures env[id := v] - c.m.Keys == (env - c.m.Keys)[id := v]
    ensures Holds(c, fuel, env[id := v]) && Grows(env, env[id := v], {id})
  {
    hide GoodCtx;
    HoldsGrows(c, fuel, env, env[id := v]);
  }

  lemma {:induction false} PreservedGroupExpr(
    c: Ctx, usages: seq<map<ConstId, nat>>, fuel: nat, e: Expr, env: Env, w: World)
    requires AllReady(c.p, usages) && c.p2 == Optimized(c.p, usages) && GoodCtx(c) && e.Group?
    requires Part(c, e, env) && Holds(c, fuel, env) && Eval(c.p, c.sc, fuel, e, env, w).Ok?
    ensures Agrees(c, fuel, env, Assigned(e), Eval(c.p, c.sc, fuel, e, env, w),
                   Eval(c.p2, c.sc2, fuel, Subst(c.m, e), env - c.m.Keys, w))
    decreases fuel, 0, e, 0
  {
    hide AllReady, Optimized, GoodCtx, Holds, SubstGroup;
    var es, ks := e.exprs, SubstGroup(c.m, e.exprs);
    assert Kids(e) == es && Assigned(e) == {} + AssignedAll(es);
    PreservedGroup(c, usages, fuel, es, env, w);
    if |ks| == 1 {
      var r2 := EvalAll(c.p2, c.sc2, fuel, ks, env - c.m.Keys, w);
      assert ks == [ks[0]] && ks[1..] == [];
    }
  }

  ghost predicate AgreesLast(
    c: Ctx, fuel: nat, env: Env, ids: set<ConstId>, r: Result<seq<Value>>, r2: Result<seq<Value>>)
  {
    && r.Ok? && r2.Ok? && r.val != [] && r2.val != [] && r2.val[|r2.val| - 1] == r.val[|r.val| - 1]
    && r2.env == r.env - c.m.Keys && r2.world == r.world
    && Holds(c, fuel, r.env) && Grows(env, r.env, ids)
  }

  lemma {:induction false} PreservedGroup(
    c: Ctx, usages: seq<map<ConstId, nat>>, fuel: nat, es: seq<Expr>, env: Env, w: World)
    requires AllReady(c.p, usages) && c.p2 == Optimized(c.p, usages) && GoodCtx(c) && es != []
    requires ConsistentGroup(c.p, c.m, es) && SingleAll(es) && NoneIn(AssignedAll(es), env)
    requires Holds(c, fuel, env) && EvalAll(c.p, c.sc, fuel, es, env, w).Ok?
    ensures AgreesLast(c, fuel, env, AssignedAll(es), EvalAll(c.p, c.sc, fuel, es, env, w),
                       EvalAll(c.p2, c.sc2, fuel, SubstGroup(c.m, es), env - c.m.Keys, w))
    decreases fuel, 0, es, 2
  {
    hide AllReady, Optimized, GoodCtx, Holds, Consistent, Single, Subst, Assigned, Eval, Kids;
    var e, last := es[0], |es| == 1;
    var r := Eval(c.p, c.sc, fuel, e, env, w);
    var all, all2 := EvalAll(c.p, c.sc, fuel, es, env, w), EvalAll(c.p2, c.sc2, fuel, SubstGroup(c.m, es), env - c.m.Keys, w);
    assert r.Ok?;
    if Dropped(c.m, e, last) {
      PreservedDropped(c, usages, fuel, e, env, w);
    } else {
      Preserved(c, usages, fuel, e, env, w);
    }
    if last {
      assert es[1..] == [];
      assert SubstGroup(c.m, es) == [Subst(c.m, e)];
      assert [Subst(c.m, e)][1..] == [];
    } else {
      StillNone(env, r.env, Assigned(e), AssignedAll(es[1..]));
      PreservedGroup(c, usages, fuel, es[1..], r.env, r.world);
      var r1 := EvalAll(c.p, c.sc, fuel, es[1..], r.env, r.world);
      GrowsTrans(env, r.env, r1.env, Assigned(e), AssignedAll(es[1..]));
      assert all.val == [r.val] + r1.val;
      if !Dropped(c.m, e, last) {
        assert SubstGroup(c.m, es)[1..] == SubstGroup(c.m, es[1..]);
      }
    }
  }

  /** Leaving out an assignment changes nothing but that the constant is missing. */
  lemma {:induction false} PreservedDropped(
    c: Ctx, usages: seq<map<ConstId, nat>>, fuel: nat, e: Expr, env: Env, w: World)
    requires AllReady(c.p, usages) && c.p2 == Optimized(c.p, usages) && GoodCtx(c)
    requires Dropped(c.m, e, false) && ConsistentElement(c.p, c.m, e, false)
    requires Single(e) && NoneIn(Assigned(e), env) && Holds(c, fuel, env)
    requires Eval(c.p, c.sc, fuel, e, env, w).Ok?
    ensures var r := Eval(c.p, c.sc, fuel, e, env, w);
            && r.env - c.m.Keys == env - c.m.Keys && r.world == w
            && Holds(c, fuel, r.env) && Grows(env, r.env, Assigned(e))
    decreases fuel, 0, e, 0
  {
    hide EvalAll;
    OneKid(e);
    var r := Eval(c.p, c.sc, fuel, e.init, env, w);
    var x, env2 := c.m[e.id], env - c.m.Keys;
    Preserved(c, usages, fuel, e.init, env, w);
    assert Movable(c.p2, c.sc2, x);
    Anywhere(c.p2, c.sc2, fuel, x, env2, w, env2, w);
    forall w2: World ensures Eval(c.p2, c.sc2, fuel, x, env2, w2) == Ok(r.val, env2, w2) {
      Anywhere(c.p2, c.sc2, fuel, x, env2, w, env2, w2);
    }
    hide AllReady, Optimized, GoodCtx, Eval;
    assert Gives(c, fuel, x, env2, r.val);
    var env1 := r.env[e.id := r.val];
    assert env1 - c.m.Keys == r.env - c.m.Keys == env2;
    StillNone(env, r.env, Assigned(e.init), {e.id});
    assert Grows(r.env, env1, {e.id});
    GrowsTrans(env, r.env, env1, Assigned(e.init), {e.id});
    forall id | id in env1 && id in c.m ensures Gives(c, fuel, c.m[id], env1 - c.m.Keys, env1[id]) {}
  }

  lemma {:induction false} PreservedSwitch(
    c: Ctx, usages: seq<map<ConstId, nat>>, fuel: nat, e: Expr, env: Env, w: World)
    requires AllReady(c.p, usages) && c.p2 == Optimized(c.p, usages) && GoodCtx(c) && e.Switch?
    requires Part(c, e, env) && Holds(c, fuel, env) && Eval(c.p, c.sc, fuel, e, env, w).Ok?
    ensures Agrees(c, fuel, env, Assigned(e), Eval(c.p, c.sc, fuel, e, env, w),
                   Eval(c.p2, c.sc2, fuel, Subst(c.m, e), env - c.m.Keys, w))
    decreases fuel, 0, e, 0
  {
    var cs, bs := e.conds, e.branches;
    KidsParts(c, e, env);
    PartsCat(c, cs, bs, env);
    SubstCat(c.m, cs, bs);
    var r := EvalConds(c.p, c.sc, fuel, cs, env, w);
    var k := r.val;
    assert Subst(c.m, e) == Switch(SubstAll(c.m, cs), SubstAll(c.m, bs));
    PreservedConds(c, usages, fuel, cs, env, w);
    PartAt(c, bs, k, env);
    SubstAt(c.m, bs, k);
    StillNone(env, r.env, AssignedAll(cs), Assigned(bs[k]));
    hide AllReady, Optimized, GoodCtx, Holds, Subst, SubstAll, Consistent, Single;
    Preserved(c, usages, fuel, bs[k], r.env, r.world);
    GrowsTrans(env, r.env, Eval(c.p, c.sc, fuel, bs[k], r.env, r.world).env, AssignedAll(cs), Assigned(bs[k]));
  }

  lemma {:induction false} PreservedInvoke(
    p: Program, usages: seq<map<ConstId, nat>>, fuel: nat, f: FuncId, vals: seq<Value>, w: World)
    requires AllReady(p, usages) && p.IsUser(f) && Invoke(p, fuel, f, vals, w).Ok?
    ensures var p2, r := Optimized(p, usages), Invoke(p, fuel, f, vals, w);
            && p2.IsUser(f) && Invoke(p2, fuel, f, vals, w).Ok?
            && Invoke(p2, fuel, f, vals, w).val == r.val && Invoke(p2, fuel, f, vals, w).world == r.world
    decreases fuel, 1
  {
    var kind := p.funcs[f].kind;
    var c := FuncCtx(p, usages, f);
    var env := BindInputs(kind.consts.Inputs(), vals);
    FuncCtxGood(p, usages, f);
    assert env - c.m.Keys == env;
    Preserved(c, usages, fuel, kind.body, env, w);
  }

  lemma {:induction false} PreservedCall(
    c: Ctx, usages: seq<map<ConstId, nat>>, fuel: nat, e: Expr, env: Env, w: World)
    requires AllReady(c.p, usages) && c.p2 == Optimized(c.p, usages) && GoodCtx(c) && e.Call?
    requires Part(c, e, env) && Holds(c, fuel, env) && Eval(c.p, c.sc, fuel, e, env, w).Ok?
    ensures Agrees(c, fuel, env, Assigned(e), Eval(c.p, c.sc, fuel, e, env, w),
                   Eval(c.p2, c.sc2, fuel, Subst(c.m, e), env - c.m.Keys, w))
    decreases fuel, 0, e, 0
  {
    KidsParts(c, e, env);
    PreservedAll(c, usages, fuel, e.args, env, w);
    var r := EvalAll(c.p, c.sc, fuel, e.args, env, w);
    assert SameFunc(c.p.funcs[e.func], c.p2.funcs[e.func]);
    hide AllReady, Optimized, Holds, Parts, Part;
    if c.p.IsUser(e.func) {
      PreservedInvoke(c.p, usages, fuel - 1, e.func, r.val, r.world);
    } else {
      SameIntrinsic(c.p, c.p2, c.p.funcs[e.func].kind, r.val, r.world);
    }
  }

  lemma {:induction false} PreservedCallDyn(
    c: Ctx, usages: seq<map<ConstId, nat>>, fuel: nat, e: Expr, env: Env, w: World)
    requires AllReady(c.p, usages) && c.p2 == Optimized(c.p, usages) && GoodCtx(c) && e.CallDyn?
    requires Part(c, e, env) && Holds(c, fuel, env) && Eval(c.p, c.sc, fuel, e, env, w).Ok?
    ensures Agrees(c, fuel, env, Assigned(e), Eval(c.p, c.sc, fuel, e, env, w),
                   Eval(c.p2, c.sc2, fuel, Subst(c.m, e), env - c.m.Keys, w))
    decreases fuel, 0, e, 0
  {
    KidsParts(c, e, env);
    PartsCat(c, [e.tgt], e.args, env);
    PartAt(c, [e.tgt], 0, env);
    SubstCat(c.m, [e.tgt], e.args);
    SubstOne(c.m, e.tgt);
    assert Subst(c.m, e) == CallDyn(Subst(c.m, e.tgt), SubstAll(c.m, e.args), e.act);
    assert AssignedAll([e.tgt]) == Assigned(e.tgt) by { assert [e.tgt][1..] == []; }
    var r := EvalAll(c.p, c.sc, fuel, e.args, env, w);
    PreservedAll(c, usages, fuel, e.args, env, w);
    StillNone(env, r.env, AssignedAll(e.args), Assigned(e.tgt));
    var t := Eval(c.p, c.sc, fuel, e.tgt, r.env, r.world);
    hide AllReady, Optimized, Holds, Subst, SubstAll, Parts;
    Preserved(c, usages, fuel, e.tgt, r.env, r.world);
    GrowsTrans(env, r.env, t.env, AssignedAll(e.args), Assigned(e.tgt));
    assert SameFunc(c.p.funcs[t.val.func], c.p2.funcs[t.val.func]);
    PreservedInvoke(c.p, usages, fuel - 1, t.val.func, r.val + t.val.bound, t.world);
  }

  lemma {:induction false} PreservedCallSelf(
    c: Ctx, usages: seq<map<ConstId, nat>>, fuel: nat, e: Expr, env: Env, w: World)
    requires AllReady(c.p, usages) && c.p2 == Optimized(c.p, usages) && GoodCtx(c) && e.CallSelf?
    requires Part(c, e, env) && Holds(c, fuel, env) && Eval(c.p, c.sc, fuel, e, env, w).Ok?
    ensures Agrees(c, fuel, env, Assigned(e), Eval(c.p, c.sc, fuel, e, env, w),
                   Eval(c.p2, c.sc2, fuel, Subst(c.m, e), env - c.m.Keys, w))
    decreases fuel, 0, e, 0
  {
    KidsParts(c, e, env);
    PreservedAll(c, usages, fuel, e.args, env, w);
    var r, ids := EvalAll(c.p, c.sc, fuel, e.args, env, w), c.sc.consts.bound;
    hide AllReady, Optimized, Holds, Parts, Part, Subst;
    LookupsKept(r.env, c.m.Keys, ids);
    PreservedInvoke(c.p, usages, fuel - 1, c.sc.func.value, r.val + Lookups(r.env, ids).value, r.world);
  }

  lemma LookupsKept(env: Env, gone: set<ConstId>, ids: seq<ConstId>)
    requires Lookups(env, ids).Some? && forall id | id in ids :: id !in gone
    ensures Lookups(env - gone, ids) == Lookups(env, ids)
  {
    assert forall i :: 0 <= i < |ids| ==> ids[i] in env - gone;
    assert Lookups(env - gone, ids).value == Lookups(env, ids).value;
  }

  lemma {:induction false} PreservedPlain(
    c: Ctx, usages: seq<map<ConstId, nat>>, fuel: nat, e: Expr, env: Env, w: World)
    requires AllReady(c.p, usages) && c.p2 == Optimized(c.p, usages) && GoodCtx(c)
    requires e.LitBool? || e.LitInt? || e.LitFunc? || e.ConstRef? || e.Closure? || e.Field? || e.UnionCheck?
          || e.UnionGet? || e.FailNode?
    requires Part(c, e, env) && Holds(c, fuel, env) && Eval(c.p, c.sc, fuel, e, env, w).Ok?
    ensures Agrees(c, fuel, env, Assigned(e), Eval(c.p, c.sc, fuel, e, env, w),
                   Eval(c.p2, c.sc2, fuel, Subst(c.m, e), env - c.m.Keys, w))
    decreases fuel, 0, e, 1
  {
    match e
    case Closure(_, _) => PreservedClosure(c, usages, fuel, e, env, w);
    case Field(_, _, _) => PreservedRead(c, usages, fuel, e, env, w);
    case UnionCheck(_, _, _) => PreservedRead(c, usages, fuel, e, env, w);
    case UnionGet(_, _, _, _) => PreservedGet(c, usages, fuel, e, env, w);
    case _ => PreservedLeaf(c, usages, fuel, e, env, w);
  }

  lemma {:induction false} PreservedLeaf(
    c: Ctx, usages: seq<map<ConstId, nat>>, fuel: nat, e: Expr, env: Env, w: World)
    requires AllReady(c.p, usages) && c.p2 == Optimized(c.p, usages) && GoodCtx(c)
    requires (e.LitBool? || e.LitInt? || e.LitFunc? || e.ConstRef? || e.FailNode?) && Part(c, e, env) && Holds(c, fuel, env) && Eval(c.p, c.sc, fuel, e, env, w).Ok?
    ensures Agrees(c, fuel, env, Assigned(e), Eval(c.p, c.sc, fuel, e, env, w),
                   Eval(c.p2, c.sc2, fuel, Subst(c.m, e), env - c.m.Keys, w))
    decreases fuel, 0, e, 0
  {
    hide AllReady, Optimized, Consistent, Single;
    if e.LitFunc? { assert SameFunc(c.p.funcs[e.func], c.p2.funcs[e.func]); }
    if e.ConstRef? && e.id in c.m { assert Gives(c, fuel, c.m[e.id], env - c.m.Keys, env[e.id]); }
  }

  lemma {:induction false} PreservedClosure(
    c: Ctx, usages: seq<map<ConstId, nat>>, fuel: nat, e: Expr, env: Env, w: World)
    requires AllReady(c.p, usages) && c.p2 == Optimized(c.p, usages) && GoodCtx(c)
    requires e.Closure? && Part(c, e, env) && Holds(c, fuel, env) && Eval(c.p, c.sc, fuel, e, env, w).Ok?
    ensures Agrees(c, fuel, env, Assigned(e), Eval(c.p, c.sc, fuel, e, env, w),
                   Eval(c.p2, c.sc2, fuel, Subst(c.m, e), env - c.m.Keys, w))
    decreases fuel, 0, e, 0
  {
    KidsParts(c, e, env);
    assert SameFunc(c.p.funcs[e.func], c.p2.funcs[e.func]);
    hide AllReady, Optimized, Consistent, Single, Holds, Part, Parts, GoodCtx;
    PreservedAll(c, usages, fuel, e.boundArgs, env, w);
  }

  lemma {:induction false} PreservedRead(
    c: Ctx, usages: seq<map<ConstId, nat>>, fuel: nat, e: Expr, env: Env, w: World)
    requires AllReady(c.p, usages) && c.p2 == Optimized(c.p, usages) && GoodCtx(c)
    requires (e.Field? || e.UnionCheck?) && Part(c, e, env) && Holds(c, fuel, env) && Eval(c.p, c.sc, fuel, e, env, w).Ok?
    ensures Agrees(c, fuel, env, Assigned(e), Eval(c.p, c.sc, fuel, e, env, w),
                   Eval(c.p2, c.sc2, fuel, Subst(c.m, e), env - c.m.Keys, w))
    decreases fuel, 0, e, 0
  {
    KidsParts(c, e, env);
    hide AllReady, Optimized, Consistent, Single, Holds, Part, Parts, HasType;
    PreservedLhs(c, usages, fuel, e, e.lhs, if e.Field? then e.stype else e.utype, env, w);
  }

  lemma {:induction false} PreservedGet(
    c: Ctx, usages: seq<map<ConstId, nat>>, fuel: nat, e: Expr, env: Env, w: World)
    requires AllReady(c.p, usages) && c.p2 == Optimized(c.p, usages) && GoodCtx(c)
    requires e.UnionGet? && Part(c, e, env) && Holds(c, fuel, env) && Eval(c.p, c.sc, fuel, e, env, w).Ok?
    ensures Agrees(c, fuel, env, Assigned(e), Eval(c.p, c.sc, fuel, e, env, w),
                   Eval(c.p2, c.sc2, fuel, Subst(c.m, e), env - c.m.Keys, w))
    decreases fuel, 0, e, 0
  {
    hide AllReady, Optimized, Consistent, Single, ScopeOk, SingleAll, Ready, Size, Assigned, ToSet;
    KidsParts(c, e, env);
    PreservedLhs(c, usages, fuel, e, e.lhs, e.utype, env, w);
    var r := Eval(c.p, c.sc, fuel, e.lhs, env, w);
    hide Holds, Part, Parts, HasType, GoodCtx;
    StillNone(env, r.env, Assigned(e.lhs), {e.id});
    Stored(c, fuel, r.env, e.id, r.val.val);
    assert r.env - {e.id} == r.env;
  }

  lemma {:induction false} PreservedLhs(
    c: Ctx, usages: seq<map<ConstId, nat>>, fuel: nat, e: Expr, lhs: Expr, t: TypeId, env: Env, w: World)
    requires AllReady(c.p, usages) && c.p2 == Optimized(c.p, usages) && GoodCtx(c)
    requires Kids(e) == [lhs] && Parts(c, [lhs], env) && lhs < e
    requires Holds(c, fuel, env) && Eval(c.p, c.sc, fuel, lhs, env, w).Ok?
    ensures Agrees(c, fuel, env, Assigned(lhs), Eval(c.p, c.sc, fuel, lhs, env, w),
                   Eval(c.p2, c.sc2, fuel, Subst(c.m, lhs), env - c.m.Keys, w))
    ensures SubstAll(c.m, [lhs]) == [Subst(c.m, lhs)] && AssignedAll([lhs]) == Assigned(lhs)
    ensures var v := Eval(c.p, c.sc, fuel, lhs, env, w).val; HasType(c.p2, v, t) == HasType(c.p, v, t)
    decreases fuel, 0, lhs, 3
  {
    PartAt(c, [lhs], 0, env);
    SubstOne(c.m, lhs);
    assert [lhs][1..] == [];
    TypesDecide(c.p, c.p2, Eval(c.p, c.sc, fuel, lhs, env, w).val, t);
    Preserved(c, usages, fuel, lhs, env, w);
  }

  // ----- The scope of a function -----

  function FuncCtx(p: Program, usages: seq<map<ConstId, nat>>, f: FuncId): Ctx
    requires p.IsUser(f) && |p.funcs| <= |usages|
  {
    var p2 := Optimized(p, usages);
    Ctx(p, p2, FuncScope(p, f), FuncScope(p2, f), Pass(p, usages, f).1.replace)
  }

  lemma FuncCtxGood(p: Program, usages: seq<map<ConstId, nat>>, f: FuncId)
    requires AllReady(p, usages) && p.IsUser(f)
    ensures var c, body := FuncCtx(p, usages, f), p.funcs[f].kind.body;
            && GoodCtx(c) && Consistent(p, c.m, body) && Single(body)
            && c.p2.funcs[f].kind.body == Subst(c.m, body)
            && Assigned(body) !! ToSet(c.sc.consts.Inputs()) && c.m.Keys <= Assigned(body)
  {
    assert Ready(p, usages, f);
    var c, body, s := FuncCtx(p, usages, f), p.funcs[f].kind.body, Start(p, f);
    var inputs, s1 := ToSet(c.sc.consts.Inputs()), Pass(p, usages, f).1;
    SameFuncsOf(p, usages);
    PassAdds(p, usages[f], s, body);
    PassIsSubst(p, usages[f], s, body, inputs, c.m);
    hide Rewritten, AllReady, SameFuncs;
    forall id | id in c.m ensures Movable(c.p2, c.sc2, c.m[id]) {
      ActsSame(p, c.p2, c.m[id], c.sc.isAction);
      TestIsRightUnless(p, c.sc, c.m[id]);
    }
  }

  lemma SameFuncsOf(p: Program, usages: seq<map<ConstId, nat>>)
    requires AllReady(p, usages)
    ensures SameFuncs(p, Optimized(p, usages))
  {
    forall f | 0 <= f < |p.funcs| ensures SameFunc(p.funcs[f], Optimized(p, usages).funcs[f]) {
      assert Ready(p, usages, f);
      if p.IsUser(f) { PassAdds(p, usages[f], Start(p, f), p.funcs[f].kind.body); }
    }
  }

  lemma {:induction false} ActsSame(p: Program, p2: Program, e: Expr, selfActs: bool)
    requires SameFuncs(p, p2)
    ensures ActsIn(p2, e, selfActs) == ActsIn(p, e, selfActs)
    decreases Size(e), 0
  {
    if e.Call? && e.func < |p.funcs| { assert SameFunc(p.funcs[e.func], p2.funcs[e.func]); }
    ActsSameAll(p, p2, Kids(e), selfActs);
  }

  lemma {:induction false} ActsSameAll(p: Program, p2: Program, es: seq<Expr>, selfActs: bool)
    requires SameFuncs(p, p2)
    ensures ActsInAny(p2, es, selfActs) == ActsInAny(p, es, selfActs)
    decreases SizeAll(es), 1
  {
    if es != [] {
      ActsSame(p, p2, es[0], selfActs);
      ActsSameAll(p, p2, es[1..], selfActs);
    }
  }

  // ----- Whole programs -----

  /** The main theorem: a program whose execute statements run to their end does so with the same
      actions in the same order, and using the same replies, once its constants are eliminated. */
  lemma ProgramPreserved(p: Program, usages: seq<map<ConstId, nat>>, fuel: nat, w: World)
    requires AllReady(p, usages) && RunExecs(p, fuel, p.execs, w).Some?
    ensures RunExecs(Optimized(p, usages), fuel, p.execs, w) == RunExecs(p, fuel, p.execs, w)
  {
    var p2 := Optimized(p, usages);
    SameFuncsOf(p, usages);
    forall k: nat, f: FuncId, vals: seq<Value>, w: World
      | k < fuel && p.IsUser(f) && Invoke(p, k, f, vals, w).Ok?
      ensures CallAgrees(p, p2, k, f, vals, w)
    {
      PreservedInvoke(p, usages, k, f, vals, w);
    }
    ExecsUnchanged(p, p2, fuel, p.execs, w);
  }

  // ----- Nothing refers to a removed constant -----

  /** The replacements of the constants known so far mention no replaced constant themselves. */
  ghost predicate CleanOn(m: Replacement, known: set<ConstId>) {
    forall id | id in m && id in known :: Clean(m, m[id])
  }

  predicate Clean(m: Replacement, e: Expr) {
    Uses(e) !! m.Keys && Assigned(e) !! m.Keys
  }

  predicate CleanAll(m: Replacement, es: seq<Expr>) {
    UsesAll(es) !! m.Keys && AssignedAll(es) !! m.Keys
  }

  lemma {:induction false} SubstClean(p: Program, m: Replacement, e: Expr, known: set<ConstId>)
    requires Consistent(p, m, e) && Scoped(known, e) && CleanOn(m, known)
    ensures Clean(m, Subst(m, e)) && CleanOn(m, known + Assigned(e))
    decreases Size(e), 0
  {
    match e
    case Group(es) =>
      SubstCleanGroup(p, m, es, known);
      assert known + Assigned(e) == known + AssignedAll(es);
      var ks := SubstGroup(m, es);
      assert Kids(Group(ks)) == ks;
      if |ks| == 1 { assert ks[1..] == [] && UsesAll(ks) == Uses(ks[0]) + UsesAll(ks[1..]); }
    case ConstRef(_) =>
    case _ =>
      var ks := SubstAll(m, Kids(e));
      SubstCleanAll(p, m, Kids(e), known);
      assert Kids(WithKids(e, ks)) == ks by { KidsOfWithKids(e, ks); }
      forall id | id in m && id in known + Assigned(e) ensures Clean(m, m[id]) {
        assert id in known + AssignedAll(Kids(e));
      }
  }

  lemma {:induction false} SubstCleanAll(p: Program, m: Replacement, es: seq<Expr>, known: set<ConstId>)
    requires ConsistentAll(p, m, es) && ScopedAll(known, es) && CleanOn(m, known)
    ensures CleanAll(m, SubstAll(m, es)) && CleanOn(m, known + AssignedAll(es))
    decreases SizeAll(es), 1
  {
    if es == [] {
      assert known + AssignedAll(es) == known;
    } else {
      SubstClean(p, m, es[0], known);
      SubstCleanAll(p, m, es[1..], known + Assigned(es[0]));
      assert known + Assigned(es[0]) + AssignedAll(es[1..]) == known + AssignedAll(es);
      assert SubstAll(m, es)[1..] == SubstAll(m, es[1..]);
    }
  }

  lemma {:induction false} SubstCleanGroup(p: Program, m: Replacement, es: seq<Expr>, known: set<ConstId>)
    requires ConsistentGroup(p, m, es) && ScopedAll(known, es) && CleanOn(m, known)
    ensures CleanAll(m, SubstGroup(m, es)) && CleanOn(m, known + AssignedAll(es))
    decreases SizeAll(es), 2
  {
    if es == [] {
      assert known + AssignedAll(es) == known;
    } else {
      var e, rest := es[0], SubstGroup(m, es[1..]);
      if Dropped(m, e, |es| == 1) {
        OneKid(e);
        assert ScopedAll(known, Kids(e)) && Kids(e)[0] == e.init;
        SubstClean(p, m, e.init, known);
        assert CleanOn(m, known + Assigned(e));
      } else {
        SubstClean(p, m, e, known);
        assert ([Subst(m, e)] + rest)[1..] == rest;
      }
      SubstCleanGroup(p, m, es[1..], known + Assigned(e));
      assert known + Assigned(e) + AssignedAll(es[1..]) == known + AssignedAll(es);
    }
  }

  /** In the optimized function no removed constant is used, assigned or reserved any more. */
  lemma RemovedIsGone(p: Program, usages: seq<map<ConstId, nat>>, f: FuncId)
    requires AllReady(p, usages) && p.IsUser(f)
    ensures var (e, s) := Pass(p, usages, f);
            && Uses(e) !! s.replace.Keys && Assigned(e) !! s.replace.Keys
            && forall id | id in s.replace :: !s.consts.Has(id)
  {
    var c, body := FuncCtx(p, usages, f), p.funcs[f].kind.body;
    FuncCtxGood(p, usages, f);
    assert Ready(p, usages, f);
    PassAdds(p, usages[f], Start(p, f), body);
    SubstClean(p, c.m, body, ToSet(c.sc.consts.Inputs()));
  }

  // ----- What the test for side effects misses -----

  lemma {:induction false} ActsBySelf(p: Program, e: Expr)
    ensures ActsIn(p, e, true) <==> ActsIn(p, e, false) || CallsSelf(e)
    decreases Size(e), 0
  {
    ActBySelf(p, Kids(e));
  }

  lemma {:induction false} ActBySelf(p: Program, es: seq<Expr>)
    ensures ActsInAny(p, es, true) <==> ActsInAny(p, es, false) || AnyCallsSelf(es)
    decreases SizeAll(es), 1
  {
    if es != [] {
      ActsBySelf(p, es[0]);
      ActBySelf(p, es[1..]);
    }
  }

  /** An initialiser that passes the test may really be moved exactly when it is not a self-call
      inside an action. */
  lemma TestIsRightUnless(p: Program, sc: Scope, e: Expr)
    requires !HasSideEffect(p, e)
    ensures Movable(p, sc, e) <==> !(sc.isAction && CallsSelf(e))
  {
    ActsBySelf(p, e);
  }
}
