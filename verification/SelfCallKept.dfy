/** When const elimination leaves the self-calls of an action where they are, as a condition on the
    function before the pass. */
module SelfCallKept {
  import opened Lang
  import opened Trees
  import opened Purity
  import opened Effects
  import opened CallGraph
  import opened ConstElim
  import opened ConstElimMeaning

  type Usage = map<ConstId, nat>

  predicate UsedOnce(usage: Usage, id: ConstId) {
    id !in usage || usage[id] == 1
  }

  /** An element of a group that assigns a self-call to a constant used once. */
  predicate MovesSelf(p: Program, usage: Usage, e: Expr, last: bool) {
    e.Assign? && !last && CallsSelf(e.init) && !ActsIn(p, e.init, false) && UsedOnce(usage, e.id)
  }

  /** No group inside e has such an element. */
  predicate SelfStays(p: Program, usage: Usage, e: Expr)
    decreases Size(e), 0
  {
    if e.Group? then SelfStaysGroup(p, usage, e.exprs) else SelfStaysAll(p, usage, Kids(e))
  }

  predicate SelfStaysAll(p: Program, usage: Usage, es: seq<Expr>)
    decreases SizeAll(es), 1
  {
    es == [] || (SelfStays(p, usage, es[0]) && SelfStaysAll(p, usage, es[1..]))
  }

  predicate SelfStaysGroup(p: Program, usage: Usage, es: seq<Expr>)
    decreases SizeAll(es), 2
  {
    es == [] || (!MovesSelf(p, usage, es[0], |es| == 1) && SelfStays(p, usage, es[0]) && SelfStaysGroup(p, usage, es[1..]))
  }

  // ----- Nodes and their children -----

  lemma DeclaresByKids(e: Expr)
    ensures Declares(e) <==> e.Assign? || e.UnionGet? || DeclaresAny(Kids(e))
  {
    match e
    case Switch(cs, bs) => DeclaresCat(cs, bs);
    case CallDyn(tgt, args, _) => DeclaresCat([tgt], args); assert [tgt][1..] == [];
    case Field(_, lhs, _) => assert [lhs][1..] == [];
    case UnionCheck(_, lhs, _) => assert [lhs][1..] == [];
    case _ =>
  }

  lemma SameNode(p: Program, e: Expr, ks: seq<Expr>)
    requires |ks| == |Kids(e)|
    ensures var k := WithKids(e, ks);
            && (CallsSelf(k) <==> e.CallSelf? || AnyCallsSelf(ks))
            && (ActsIn(p, k, false) <==> (e.Call? && e.func < |p.funcs| && p.funcs[e.func].isAction)
                                         || (e.CallDyn? && e.act) || ActsInAny(p, ks, false))
            && (Declares(k) <==> e.Assign? || e.UnionGet? || DeclaresAny(ks))
  {
    KidsOfWithKids(e, ks);
    DeclaresByKids(WithKids(e, ks));
  }

  lemma SameGroup(p: Program, ks: seq<Expr>)
    ensures CallsSelf(Regroup(ks)) <==> AnyCallsSelf(ks)
    ensures ActsIn(p, Regroup(ks), false) <==> ActsInAny(p, ks, false)
    ensures Declares(Regroup(ks)) <==> DeclaresAny(ks)
  {
    assert Kids(Group(ks)) == ks;
    if |ks| == 1 { assert ks[1..] == []; }
  }

  lemma Concat(p: Program, a: seq<Expr>, b: seq<Expr>)
    ensures AnyCallsSelf(a + b) <==> AnyCallsSelf(a) || AnyCallsSelf(b)
    ensures ActsInAny(p, a + b, false) <==> ActsInAny(p, a, false) || ActsInAny(p, b, false)
    ensures DeclaresAny(a + b) <==> DeclaresAny(a) || DeclaresAny(b)
    decreases |a|
  {
    if a == [] {
      assert a + b == b;
    } else {
      assert (a + b)[1..] == a[1..] + b;
      Concat(p, a[1..], b);
    }
  }

  lemma One(p: Program, e: Expr)
    ensures AnyCallsSelf([e]) == CallsSelf(e) && ActsInAny(p, [e], false) == ActsIn(p, e, false)
    ensures DeclaresAny([e]) == Declares(e)
  {
    assert [e][1..] == [];
  }

  lemma AssignNode(p: Program, id: ConstId, init: Expr)
    ensures CallsSelf(Assign(id, init)) == CallsSelf(init) && ActsIn(p, Assign(id, init), false) == ActsIn(p, init, false)
  {
    assert Kids(Assign(id, init)) == [init];
    One(p, init);
  }

  /** A self-call is neither a constant nor cheap. */
  lemma {:induction false} CheapIsNoSelfCall(p: Program, e: Expr)
    requires IsCheapIntrinsic(p, e)
    ensures !CallsSelf(e)
    decreases Size(e), 0
  {
    if !IsLiteral(e) { CheapAreNoSelfCalls(p, Kids(e)); }
  }

  lemma {:induction false} CheapAreNoSelfCalls(p: Program, es: seq<Expr>)
    requires AllCheap(p, es)
    ensures !AnyCallsSelf(es)
    decreases SizeAll(es), 1
  {
    if es != [] {
      CheapIsNoSelfCall(p, es[0]);
      CheapAreNoSelfCalls(p, es[1..]);
    }
  }

  // ----- The condition is enough -----

  /** What the pass makes of an expression calls the function itself only if the expression did, and
      acts if the expression did. */
  predicate Keeps(p: Program, before: seq<Expr>, after: seq<Expr>) {
    (AnyCallsSelf(after) ==> AnyCallsSelf(before)) && (ActsInAny(p, before, false) ==> ActsInAny(p, after, false))
  }

  lemma {:induction false} PassKeeps(p: Program, usage: Usage, s: State, e: Expr)
    requires NoSelves(s.replace) && SelfStays(p, usage, e)
    ensures var (k, s1) := Rewritten(p, usage, s, e);
            NoSelves(s1.replace) && Keeps(p, [e], [k])
    decreases Size(e), 0
  {
    var k := Rewritten(p, usage, s, e).0;
    One(p, e);
    One(p, k);
    match e
    case Group(es) =>
      PassKeepsGroup(p, usage, s, es);
      SameGroup(p, RewrittenGroup(p, usage, s, es).0);
    case ConstRef(id) =>
    case _ =>
      PassKeepsAll(p, usage, s, Kids(e));
      SameNode(p, e, RewrittenAll(p, usage, s, Kids(e)).0);
  }

  lemma {:induction false} PassKeepsAll(p: Program, usage: Usage, s: State, es: seq<Expr>)
    requires NoSelves(s.replace) && SelfStaysAll(p, usage, es)
    ensures var (ks, s1) := RewrittenAll(p, usage, s, es);
            NoSelves(s1.replace) && Keeps(p, es, ks)
    decreases SizeAll(es), 1
  {
    if es != [] {
      var (k, s1) := Rewritten(p, usage, s, es[0]);
      var (ks, s2) := RewrittenAll(p, usage, s1, es[1..]);
      PassKeeps(p, usage, s, es[0]);
      PassKeepsAll(p, usage, s1, es[1..]);
      KeepsCat(p, es, [k], ks);
    }
  }

  lemma KeepsCat(p: Program, es: seq<Expr>, k: seq<Expr>, ks: seq<Expr>)
    requires es != [] && Keeps(p, [es[0]], k) && Keeps(p, es[1..], ks)
    ensures Keeps(p, es, k + ks)
  {
    assert es == [es[0]] + es[1..];
    Concat(p, [es[0]], es[1..]);
    Concat(p, k, ks);
  }

  lemma {:induction false} PassKeepsGroup(p: Program, usage: Usage, s: State, es: seq<Expr>)
    requires NoSelves(s.replace) && SelfStaysGroup(p, usage, es)
    ensures var (ks, s1) := RewrittenGroup(p, usage, s, es);
            NoSelves(s1.replace) && Keeps(p, es, ks)
    decreases SizeAll(es), 2
  {
    if es != [] {
      var (k, s1) := RewrittenElement(p, usage, s, es[0], |es| == 1);
      var (ks, s2) := RewrittenGroup(p, usage, s1, es[1..]);
      PassKeepsElement(p, usage, s, es[0], |es| == 1);
      PassKeepsGroup(p, usage, s1, es[1..]);
      KeepsCat(p, es, k, ks);
    }
  }

  lemma {:induction false} PassKeepsElement(p: Program, usage: Usage, s: State, e: Expr, last: bool)
    requires NoSelves(s.replace) && SelfStays(p, usage, e) && !MovesSelf(p, usage, e, last)
    ensures var (ks, s1) := RewrittenElement(p, usage, s, e, last);
            NoSelves(s1.replace) && Keeps(p, [e], ks)
    decreases Size(e), 1
  {
    if e.Assign? {
      var (init, s1) := Rewritten(p, usage, s, e.init);
      assert SelfStaysAll(p, usage, Kids(e)) && Kids(e)[0] == e.init;
      PassKeeps(p, usage, s, e.init);
      One(p, e.init);
      One(p, init);
      One(p, e);
      One(p, Assign(e.id, init));
      AssignNode(p, e.id, e.init);
      AssignNode(p, e.id, init);
      if !last && ShouldBeEliminated(p, usage, e.id, init) && CallsSelf(init) {
        if IsCheapIntrinsic(p, init) { CheapIsNoSelfCall(p, init); }
        assert false;
      }
    } else {
      PassKeeps(p, usage, s, e);
    }
  }

  // ----- The condition is needed -----

  /** An initialiser that calls the function itself declares nothing. */
  predicate PlainSelfCalls(e: Expr)
    decreases Size(e), 0
  {
    (e.Assign? && CallsSelf(e.init) ==> !Declares(e.init)) && AllPlainSelfCalls(Kids(e))
  }

  predicate AllPlainSelfCalls(es: seq<Expr>)
    decreases SizeAll(es), 1
  {
    es == [] || (PlainSelfCalls(es[0]) && AllPlainSelfCalls(es[1..]))
  }

  predicate Harmless(p: Program, m: Replacement) {
    forall id | id in m :: !HasSideEffect(p, m[id])
  }

  lemma PutIn(p: Program, x: Expr)
    requires !HasSideEffect(p, x)
    ensures !Declares(x) && !ActsIn(p, x, false)
  {}

  /** An expression that declares nothing only has its uses replaced. */
  lemma {:induction false} OnlyReplaces(p: Program, usage: Usage, s: State, e: Expr)
    requires !Declares(e) && Harmless(p, s.replace)
    ensures var (k, s1) := Rewritten(p, usage, s, e);
            && s1 == s && !Declares(k) && (ActsIn(p, k, false) ==> ActsIn(p, e, false))
            && (CallsSelf(e) ==> CallsSelf(k))
    decreases Size(e), 0
  {
    DeclaresByKids(e);
    match e
    case Group(es) =>
      OnlyReplacesGroup(p, usage, s, es);
      SameGroup(p, RewrittenGroup(p, usage, s, es).0);
    case ConstRef(id) =>
      One(p, e);
      if id in s.replace { PutIn(p, s.replace[id]); }
    case Assign(_, _) =>
    case UnionGet(_, _, _, _) =>
    case _ =>
      OnlyReplacesAll(p, usage, s, Kids(e));
      SameNode(p, e, RewrittenAll(p, usage, s, Kids(e)).0);
  }

  lemma {:induction false} OnlyReplacesAll(p: Program, usage: Usage, s: State, es: seq<Expr>)
    requires !DeclaresAny(es) && Harmless(p, s.replace)
    ensures var (ks, s1) := RewrittenAll(p, usage, s, es);
            && s1 == s && !DeclaresAny(ks) && (ActsInAny(p, ks, false) ==> ActsInAny(p, es, false))
            && (AnyCallsSelf(es) ==> AnyCallsSelf(ks))
    decreases SizeAll(es), 1
  {
    if es != [] {
      OnlyReplaces(p, usage, s, es[0]);
      OnlyReplacesAll(p, usage, s, es[1..]);
      var k, ks := Rewritten(p, usage, s, es[0]).0, RewrittenAll(p, usage, s, es[1..]).0;
      assert ([k] + ks)[1..] == ks;
    }
  }

  lemma {:induction false} OnlyReplacesGroup(p: Program, usage: Usage, s: State, es: seq<Expr>)
    requires !DeclaresAny(es) && Harmless(p, s.replace)
    ensures var (ks, s1) := RewrittenGroup(p, usage, s, es);
            && s1 == s && !DeclaresAny(ks) && (ActsInAny(p, ks, false) ==> ActsInAny(p, es, false))
            && (AnyCallsSelf(es) ==> AnyCallsSelf(ks))
    decreases SizeAll(es), 2
  {
    if es != [] {
      OnlyReplaces(p, usage, s, es[0]);
      OnlyReplacesGroup(p, usage, s, es[1..]);
      var k, ks := Rewritten(p, usage, s, es[0]).0, RewrittenGroup(p, usage, s, es[1..]).0;
      assert ([k] + ks)[1..] == ks;
    }
  }

  /** The stretch of the pass starts before anything in e has been declared. */
  predicate Fresh(p: Program, s: State, ids: set<ConstId>) {
    ids !! s.replace.Keys + ToSet(s.consts.Inputs()) && Harmless(p, s.replace)
  }

  lemma AddsFresh(p: Program, s: State, s1: State, ids: set<ConstId>, more: set<ConstId>)
    requires Adds(p, s, s1, ids) && Fresh(p, s, ids + more) && ids !! more
    ensures Fresh(p, s1, more) && Includes(s.replace, s1.replace)
  {}

  lemma StillSelves(a: Replacement, b: Replacement)
    requires Includes(a, b) && !NoSelves(a)
    ensures !NoSelves(b)
  {
    var id :| id in a && CallsSelf(a[id]);
    assert id in b && CallsSelf(b[id]);
  }

  lemma {:induction false} PassMoves(p: Program, usage: Usage, s: State, e: Expr)
    requires Single(e) && Fresh(p, s, Assigned(e)) && PlainSelfCalls(e) && !SelfStays(p, usage, e)
    ensures !NoSelves(Rewritten(p, usage, s, e).1.replace)
    decreases Size(e), 0
  {
    if e.Group? {
      PassMovesGroup(p, usage, s, e.exprs);
    } else if Kids(e) != [] {
      PassMovesAll(p, usage, s, Kids(e));
    }
  }

  lemma {:induction false} PassMovesAll(p: Program, usage: Usage, s: State, es: seq<Expr>)
    requires SingleAll(es) && Fresh(p, s, AssignedAll(es)) && AllPlainSelfCalls(es) && !SelfStaysAll(p, usage, es)
    ensures !NoSelves(RewrittenAll(p, usage, s, es).1.replace)
    decreases SizeAll(es), 1
  {
    var s1 := Rewritten(p, usage, s, es[0]).1;
    PassAdds(p, usage, s, es[0]);
    AddsFresh(p, s, s1, Assigned(es[0]), AssignedAll(es[1..]));
    PassAddsAll(p, usage, s1, es[1..]);
    if !SelfStays(p, usage, es[0]) {
      PassMoves(p, usage, s, es[0]);
      StillSelves(s1.replace, RewrittenAll(p, usage, s1, es[1..]).1.replace);
    } else {
      PassMovesAll(p, usage, s1, es[1..]);
    }
  }

  lemma {:induction false} PassMovesGroup(p: Program, usage: Usage, s: State, es: seq<Expr>)
    requires SingleAll(es) && Fresh(p, s, AssignedAll(es)) && AllPlainSelfCalls(es) && !SelfStaysGroup(p, usage, es)
    ensures !NoSelves(RewrittenGroup(p, usage, s, es).1.replace)
    decreases SizeAll(es), 2
  {
    var last := |es| == 1;
    var s1 := RewrittenElement(p, usage, s, es[0], last).1;
    PassAddsElement(p, usage, s, es[0], last);
    AddsFresh(p, s, s1, Assigned(es[0]), AssignedAll(es[1..]));
    PassAddsGroup(p, usage, s1, es[1..]);
    if MovesSelf(p, usage, es[0], last) || !SelfStays(p, usage, es[0]) {
      PassMovesElement(p, usage, s, es[0], last);
      StillSelves(s1.replace, RewrittenGroup(p, usage, s1, es[1..]).1.replace);
    } else {
      PassMovesGroup(p, usage, s1, es[1..]);
    }
  }

  lemma {:induction false} PassMovesElement(p: Program, usage: Usage, s: State, e: Expr, last: bool)
    requires Single(e) && Fresh(p, s, Assigned(e)) && PlainSelfCalls(e)
    requires MovesSelf(p, usage, e, last) || !SelfStays(p, usage, e)
    ensures !NoSelves(RewrittenElement(p, usage, s, e, last).1.replace)
    decreases Size(e), 1
  {
    if e.Assign? {
      OneKid(e);
      assert Kids(e)[0] == e.init && Kids(e)[1..] == [];
      assert SelfStays(p, usage, e) <==> SelfStays(p, usage, e.init) && SelfStaysAll(p, usage, Kids(e)[1..]);
      if MovesSelf(p, usage, e, last) {
        OnlyReplaces(p, usage, s, e.init);
        var (init, s1) := Rewritten(p, usage, s, e.init);
        assert s1.Eliminate(e.id, init).replace[e.id] == init;
      } else {
        PassMoves(p, usage, s, e.init);
        var (init, s1) := Rewritten(p, usage, s, e.init);
        PassAdds(p, usage, s, e.init);
        assert e.id !in s1.replace;
        assert Includes(s1.replace, s1.Eliminate(e.id, init).replace);
        StillSelves(s1.replace, s1.Eliminate(e.id, init).replace);
      }
    } else {
      PassMoves(p, usage, s, e);
    }
  }

  // ----- Functions -----

  /** What the pass relies on, said of the function before the pass. */
  ghost predicate InputReady(p: Program, usages: seq<Usage>, f: FuncId)
    requires f < |p.funcs| <= |usages|
  {
    p.IsUser(f) ==>
      var body, inputs := p.funcs[f].kind.body, ToSet(p.funcs[f].kind.consts.Inputs());
      && Single(body) && Assigned(body) !! inputs && Scoped(inputs, body)
      && (p.funcs[f].isAction ==> SelfStays(p, usages[f], body))
  }

  ghost predicate AllInputsReady(p: Program, usages: seq<Usage>) {
    |p.funcs| <= |usages| && forall f | 0 <= f < |p.funcs| :: InputReady(p, usages, f)
  }

  lemma InputIsEnough(p: Program, usages: seq<Usage>, f: FuncId)
    requires f < |p.funcs| <= |usages| && InputReady(p, usages, f)
    ensures Ready(p, usages, f)
  {
    if p.IsUser(f) && p.funcs[f].isAction {
      PassKeeps(p, usages[f], Start(p, f), p.funcs[f].kind.body);
    }
  }

  /** Where initialisers that call the function itself declare nothing, the condition is exact. */
  lemma InputIsExact(p: Program, usages: seq<Usage>, f: FuncId)
    requires f < |p.funcs| <= |usages| && (p.IsUser(f) ==> PlainSelfCalls(p.funcs[f].kind.body))
    ensures Ready(p, usages, f) <==> InputReady(p, usages, f)
  {
    if InputReady(p, usages, f) {
      InputIsEnough(p, usages, f);
    } else if Ready(p, usages, f) {
      PassMoves(p, usages[f], Start(p, f), p.funcs[f].kind.body);
    }
  }

  /** The theorem about the pass, with a condition that can be read off the program. */
  lemma InputPreserved(p: Program, usages: seq<Usage>, fuel: nat, w: World)
    requires AllInputsReady(p, usages) && RunExecs(p, fuel, p.execs, w).Some?
    ensures RunExecs(Optimized(p, usages), fuel, p.execs, w) == RunExecs(p, fuel, p.execs, w)
  {
    forall f | 0 <= f < |p.funcs| ensures Ready(p, usages, f) {
      InputIsEnough(p, usages, f);
    }
    ProgramPreserved(p, usages, fuel, w);
  }
}
