/** Const elimination does not count a call of the function itself as a side effect, so inside an
    action it reorders what the action does. A program it changes. */
module SelfCallMoved {
  import opened Lang
  import opened Trees
  import opened Effects
  import opened ConstElim

  const SELF := CallSelf([LitInt(0)])
  const G1 := Group([Assign(1, SELF), Call(2, []), ConstRef(1)])
  const G2 := Group([Call(2, []), SELF])

  /** `act f(c0) { if c0 { c1 = self(0); print8(); c1 } else { print7() } }` */
  const BODY := Switch([ConstRef(0)], [G1, Call(1, [])])

  const PROGRAM := Program(
    [],
    [FuncDecl(User(ConstTable([0], [], [1], 2), BODY), true),
     FuncDecl(Action(7, 0), true), FuncDecl(Action(8, 0), true)], [])

  /** The same function after the pass. */
  const BODY2 := Switch([ConstRef(0)], [G2, Call(1, [])])

  const PROGRAM2 := PROGRAM.(funcs := PROGRAM.funcs[0 := FuncDecl(User(ConstTable([0], [], [], 1), BODY2), true)])

  lemma PassMovesIt()
    ensures var s := State(map[], PROGRAM.funcs[0].kind.consts, false);
            var (e, s1) := Rewritten(PROGRAM, map[0 := 1, 1 := 1], s, BODY);
            e == BODY2 && s1.consts == PROGRAM2.funcs[0].kind.consts
  {
    var p, u, s := PROGRAM, map[0 := 1, 1 := 1], State(map[], PROGRAM.funcs[0].kind.consts, false);
    var s1 := s.Eliminate(1, SELF);
    assert s1.consts == ConstTable([0], [], [], 1);
    GroupMoves(p, u, s);
    Alone(p, u, s1, Call(1, []));
    KeepsCall(p, u, s1, 1);
    var branches := [G1, Call(1, [])];
    assert branches[1..] == [Call(1, [])] && [G2] + [Call(1, [])] == [G2, Call(1, [])];
    assert RewrittenAll(p, u, s, branches) == ([G2, Call(1, [])], s1);
    var kids := [ConstRef(0)] + branches;
    assert kids[1..] == branches && [ConstRef(0)] + [G2, Call(1, [])] == [ConstRef(0), G2, Call(1, [])];
    assert RewrittenAll(p, u, s, kids) == ([ConstRef(0), G2, Call(1, [])], s1);
    assert Kids(BODY) == kids;
    assert WithKids(BODY, [ConstRef(0), G2, Call(1, [])]) == BODY2;
  }

  lemma GroupMoves(p: Program, u: map<ConstId, nat>, s: State)
    requires 1 in u && u[1] == 1
    ensures Rewritten(p, u, s, G1) == (G2, s.Eliminate(1, SELF))
  {
    var s1 := s.Eliminate(1, SELF);
    SelfIsEliminated(p, u, s);
    KeepsCall(p, u, s1, 2);
    var last := [ConstRef(1)];
    assert last[1..] == [] && [SELF] + [] == [SELF];
    assert RewrittenGroup(p, u, s1, last) == ([SELF], s1);
    var two := [Call(2, []), ConstRef(1)];
    assert two[1..] == last && [Call(2, [])] + [SELF] == [Call(2, []), SELF];
    assert RewrittenGroup(p, u, s1, two) == ([Call(2, []), SELF], s1);
    var es := [Assign(1, SELF), Call(2, []), ConstRef(1)];
    assert es[1..] == two && [] + [Call(2, []), SELF] == [Call(2, []), SELF];
    assert RewrittenGroup(p, u, s, es) == ([Call(2, []), SELF], s1);
  }

  lemma Alone(p: Program, u: map<ConstId, nat>, s: State, e: Expr)
    ensures var (k, s1) := Rewritten(p, u, s, e);
            RewrittenAll(p, u, s, [e]) == ([k], s1)
  {
    var k := Rewritten(p, u, s, e).0;
    assert [e][1..] == [] && [k] + [] == [k];
  }

  lemma KeepsCall(p: Program, u: map<ConstId, nat>, s: State, f: FuncId)
    ensures Rewritten(p, u, s, Call(f, [])) == (Call(f, []), s)
  {
    assert Kids(Call(f, [])) == [];
  }

  lemma SelfIsEliminated(p: Program, u: map<ConstId, nat>, s: State)
    requires 1 in u && u[1] == 1
    ensures RewrittenElement(p, u, s, Assign(1, SELF), false) == ([], s.Eliminate(1, SELF))
  {
    var zero := LitInt(0);
    assert Kids(zero) == [] && Rewritten(p, u, s, zero) == (zero, s);
    Alone(p, u, s, zero);
    assert Kids(SELF) == [zero] && [zero][1..] == [];
    assert Rewritten(p, u, s, SELF) == (SELF, s);
    assert !ActsIn(p, zero, false);
    assert !ActsInAny(p, [zero], false);
    assert !HasSideEffect(p, SELF);
  }

  // ----- What the two programs do -----

  /** The parts the two programs have in common; g is the first branch. */
  predicate Like(p: Program, g: Expr) {
    && |p.funcs| == 3 && p.IsUser(0) && p.funcs[0].isAction
    && p.funcs[0].kind.consts.inputs == [0] && p.funcs[0].kind.consts.bound == []
    && p.funcs[0].kind.body == Switch([ConstRef(0)], [g, Call(1, [])])
    && p.funcs[1] == FuncDecl(Action(7, 0), true) && p.funcs[2] == FuncDecl(Action(8, 0), true)
  }

  lemma Prints(p: Program, sc: Scope, fuel: nat, f: FuncId, code: nat, env: Env, w: World)
    requires f < |p.funcs| && p.funcs[f] == FuncDecl(Action(code, 0), true) && sc.isAction && |w.replies| > 0
    ensures Eval(p, sc, fuel, Call(f, []), env, w)
         == Ok(VInt(w.replies[0]), env, World(w.done + [Event(code, [])], w.replies[1..]))
  {
    var none: seq<Value> := [];
    assert EvalAll(p, sc, fuel, [], env, w) == Ok(none, env, w);
    assert Ints(none).value == [];
  }

  lemma Chooses(p: Program, g: Expr, fuel: nat, n: int, w: World)
    requires Like(p, g)
    ensures Invoke(p, fuel, 0, [VInt(n)], w)
         == Eval(p, FuncScope(p, 0), fuel, if n != 0 then g else Call(1, []), BindInputs([0], [VInt(n)]), w)
  {
    var sc, env, cs := FuncScope(p, 0), BindInputs([0], [VInt(n)]), [ConstRef(0)];
    assert p.funcs[0].kind.consts.Inputs() == [0];
    assert env[0] == VInt(n) && cs[1..] == [];
    assert EvalConds(p, sc, fuel, [], env, w) == Ok(0, env, w);
    assert EvalConds(p, sc, fuel, cs, env, w) == Ok(if n != 0 then 0 else 1, env, w);
  }

  lemma CallsSelfWithZero(p: Program, g: Expr, env: Env, w: World)
    requires Like(p, g) && |w.replies| > 0
    ensures Eval(p, FuncScope(p, 0), 1, SELF, env, w)
         == Ok(VInt(w.replies[0]), env, World(w.done + [Event(7, [])], w.replies[1..]))
  {
    hide Ints, BindInputs, EvalConds;
    var sc := FuncScope(p, 0);
    AllOfOne(p, sc, 1, LitInt(0), env, w);
    var none: seq<Value> := [];
    assert Lookups(env, []).value == none && [VInt(0)] + none == [VInt(0)];
    hide Invoke, Like;
    InvokesZero(p, g, w);
  }

  lemma InvokesZero(p: Program, g: Expr, w: World)
    requires Like(p, g) && |w.replies| > 0
    ensures var r := Invoke(p, 0, 0, [VInt(0)], w);
            r.Ok? && r.val == VInt(w.replies[0]) && r.world == World(w.done + [Event(7, [])], w.replies[1..])
  {
    Chooses(p, g, 0, 0, w);
    Prints(p, FuncScope(p, 0), 0, 1, 7, BindInputs([0], [VInt(0)]), w);
  }

  /** The two programs do the two prints in different orders, and so return different replies. */
  lemma OrderChanges()
    ensures var w := World([], [5, 6]);
            var r, r2 := Invoke(PROGRAM, 1, 0, [VInt(1)], w), Invoke(PROGRAM2, 1, 0, [VInt(1)], w);
            && r.Ok? && r.val == VInt(5) && r.world.done == [Event(7, []), Event(8, [])]
            && r2.Ok? && r2.val == VInt(6) && r2.world.done == [Event(8, []), Event(7, [])]
  {
    var w := World([], [5, 6]);
    Before(PROGRAM, w);
    After(PROGRAM2, w);
  }

  lemma Before(p: Program, w: World)
    requires Like(p, G1) && 1 in p.funcs[0].kind.consts.locals && |w.replies| == 2
    ensures var r := Invoke(p, 1, 0, [VInt(1)], w);
            r.Ok? && r.val == VInt(w.replies[0]) && r.world.done == w.done + [Event(7, []), Event(8, [])]
  {
    var sc, env := FuncScope(p, 0), BindInputs([0], [VInt(1)]);
    Chooses(p, G1, 1, 1, w);
    CallsSelfWithZero(p, G1, env, w);
    var a, w1 := VInt(w.replies[0]), World(w.done + [Event(7, [])], w.replies[1..]);
    var env1 := env[1 := a];
    assert sc.consts.Has(1);
    Prints(p, sc, 1, 2, 8, env1, w1);
    AllOfTwo(p, sc, 1, Call(2, []), ConstRef(1), env1, w1);
    var es := G1.exprs;
    assert es[1..] == [Call(2, []), ConstRef(1)];
    assert Eval(p, sc, 1, es[0], env, w) == Ok(a, env1, w1);
    assert EvalAll(p, sc, 1, es, env, w).val == [a] + [VInt(w1.replies[0]), a];
  }

  lemma After(p: Program, w: World)
    requires Like(p, G2) && |w.replies| == 2
    ensures var r := Invoke(p, 1, 0, [VInt(1)], w);
            r.Ok? && r.val == VInt(w.replies[1]) && r.world.done == w.done + [Event(8, []), Event(7, [])]
  {
    var sc, env := FuncScope(p, 0), BindInputs([0], [VInt(1)]);
    Chooses(p, G2, 1, 1, w);
    Prints(p, sc, 1, 2, 8, env, w);
    CallsSelfWithZero(p, G2, env, World(w.done + [Event(8, [])], w.replies[1..]));
    AllOfTwo(p, sc, 1, Call(2, []), SELF, env, w);
  }
}
