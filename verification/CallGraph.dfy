/** Which functions an expression may call, directly or through the functions it calls. */
module CallGraph {
  import opened Lang
  import opened Trees

  /** User functions called by a node of e. */
  function DirectCalls(p: Program, e: Expr): set<FuncId>
    decreases Size(e), 0
  {
    (if e.Call? && p.IsUser(e.func) then {e.func} else {}) + AllDirectCalls(p, Kids(e))
  }

  function AllDirectCalls(p: Program, es: seq<Expr>): set<FuncId>
    decreases SizeAll(es), 1
  {
    if es == [] then {} else DirectCalls(p, es[0]) + AllDirectCalls(p, es[1..])
  }

  function UserFuncs(p: Program): set<FuncId> {
    set f | 0 <= f < |p.funcs| && p.IsUser(f)
  }

  function BodyCalls(p: Program, f: FuncId): set<FuncId>
    requires p.IsUser(f)
  {
    DirectCalls(p, p.funcs[f].kind.body)
  }

  lemma {:induction false} CallsAreUser(p: Program, e: Expr)
    ensures DirectCalls(p, e) <= UserFuncs(p)
    decreases Size(e), 0
  {
    AllCallsAreUser(p, Kids(e));
  }

  lemma {:induction false} AllCallsAreUser(p: Program, es: seq<Expr>)
    ensures AllDirectCalls(p, es) <= UserFuncs(p)
    decreases SizeAll(es), 1
  {
    if es != [] {
      CallsAreUser(p, es[0]);
      AllCallsAreUser(p, es[1..]);
    }
  }

  /** Whatever a member calls is a member. */
  ghost predicate Closed(p: Program, s: set<FuncId>) {
    forall f | f in s && p.IsUser(f) :: BodyCalls(p, f) <= s
  }

  /** A member with a call that leaves the set. */
  ghost function Open(p: Program, s: set<FuncId>): (f: FuncId)
    requires !Closed(p, s)
    ensures f in s && p.IsUser(f) && !(BodyCalls(p, f) <= s) && BodyCalls(p, f) <= UserFuncs(p)
  {
    var f :| f in s && p.IsUser(f) && !(BodyCalls(p, f) <= s);
    CallsAreUser(p, p.funcs[f].kind.body);
    f
  }

  /** The smallest closed set around s. */
  ghost function Close(p: Program, s: set<FuncId>): (r: set<FuncId>)
    requires s <= UserFuncs(p)
    ensures s <= r <= UserFuncs(p) && Closed(p, r)
    decreases UserFuncs(p) - s
  {
    if Closed(p, s) then s
    else Close(p, s + BodyCalls(p, Open(p, s)))
  }

  lemma {:induction false} CloseIsLeast(p: Program, s: set<FuncId>, t: set<FuncId>)
    requires s <= UserFuncs(p) && s <= t && Closed(p, t)
    ensures Close(p, s) <= t
    decreases UserFuncs(p) - s
  {
    if !Closed(p, s) {
      var f := Open(p, s);
      CloseIsLeast(p, s + BodyCalls(p, f), t);
    }
  }

  /** All functions e may end up calling. */
  ghost function Called(p: Program, e: Expr): (r: set<FuncId>)
    ensures DirectCalls(p, e) <= r && Closed(p, r)
  {
    CallsAreUser(p, e);
    Close(p, DirectCalls(p, e))
  }

  ghost predicate IsRecursive(p: Program, f: FuncId)
    requires p.IsUser(f)
  {
    var body := p.funcs[f].kind.body;
    CallsSelf(body) || f in Called(p, body)
  }

  predicate CallsSelf(e: Expr)
    decreases Size(e), 0
  {
    e.CallSelf? || AnyCallsSelf(Kids(e))
  }

  predicate AnyCallsSelf(es: seq<Expr>)
    decreases SizeAll(es), 1
  {
    es != [] && (CallsSelf(es[0]) || AnyCallsSelf(es[1..]))
  }

  lemma {:induction false} KidCalls(p: Program, es: seq<Expr>, i: nat)
    requires i < |es|
    ensures DirectCalls(p, es[i]) <= AllDirectCalls(p, es) && Size(es[i]) <= SizeAll(es)
    decreases i
  {
    if i > 0 { KidCalls(p, es[1..], i - 1); }
  }

  /** Going from a call to the body of a function that is not recursive leaves fewer functions to
      call: this is why inlining ends. */
  lemma BodyCallsFewer(p: Program, e: Expr)
    requires e.Call? && p.IsUser(e.func) && !IsRecursive(p, e.func)
    ensures Called(p, p.funcs[e.func].kind.body) < Called(p, e)
  {
    var body := p.funcs[e.func].kind.body;
    assert e.func in DirectCalls(p, e);
    CallsAreUser(p, body);
    CloseIsLeast(p, BodyCalls(p, e.func), Called(p, e));
    assert e.func in Called(p, e) && e.func !in Called(p, body);
  }

  // ----- The visitor that finds them -----

  class FindCalledFuncs {
    const p: Program
    var funcs: set<FuncId>

    constructor (p: Program)
      ensures this.p == p && funcs == {}
    {
      this.p := p;
      funcs := {};
    }

    /** New members are reachable from s, and what they call has been found too. */
    ghost predicate Found(before: set<FuncId>, s: set<FuncId>)
      reads this
    {
      && before <= funcs && s <= funcs && s <= UserFuncs(p)
      && funcs <= before + Close(p, s)
      && forall f | f in funcs && f !in before && p.IsUser(f) :: BodyCalls(p, f) <= funcs
    }

    method Visit(e: Expr)
      modifies this
      ensures Found(old(funcs), DirectCalls(p, e))
      decreases UserFuncs(p) - funcs, Size(e), 0
    {
      CallsAreUser(p, e);
      VisitAll(Kids(e));
      ghost var mid := funcs;
      AllCallsAreUser(p, Kids(e));
      CloseMore(p, AllDirectCalls(p, Kids(e)), DirectCalls(p, e));
      if e.Call? && p.IsUser(e.func) {
        MarkFunc(e.func);
        CloseMore(p, {e.func}, DirectCalls(p, e));
      }
    }

    method VisitAll(es: seq<Expr>)
      modifies this
      ensures Found(old(funcs), AllDirectCalls(p, es))
      decreases UserFuncs(p) - funcs, SizeAll(es), 1
    {
      AllCallsAreUser(p, es);
      if es != [] {
        CallsAreUser(p, es[0]);
        AllCallsAreUser(p, es[1..]);
        CloseMore(p, DirectCalls(p, es[0]), AllDirectCalls(p, es));
        CloseMore(p, AllDirectCalls(p, es[1..]), AllDirectCalls(p, es));
        Visit(es[0]);
        VisitAll(es[1..]);
      }
    }

    method MarkFunc(f: FuncId)
      requires p.IsUser(f)
      modifies this
      ensures Found(old(funcs), {f})
      decreases UserFuncs(p) - funcs, 0, 0
    {
      assert {f} <= UserFuncs(p);
      if f in funcs { return; }
      funcs := funcs + {f};
      CallsAreUser(p, p.funcs[f].kind.body);
      CloseIsLeast(p, BodyCalls(p, f), Close(p, {f}));
      Visit(p.funcs[f].kind.body);
    }
  }

  lemma CloseMore(p: Program, s: set<FuncId>, t: set<FuncId>)
    requires s <= t <= UserFuncs(p)
    ensures Close(p, s) <= Close(p, t)
  {
    CloseIsLeast(p, s, Close(p, t));
  }

  /** The test for recursion, as the optimizer makes it. */
  method TestRecursive(p: Program, f: FuncId) returns (r: bool)
    requires p.IsUser(f)
    ensures r == IsRecursive(p, f)
  {
    var body := p.funcs[f].kind.body;
    if CallsSelf(body) { return true; }
    var visitor := new FindCalledFuncs(p);
    visitor.Visit(body);
    CallsAreUser(p, body);
    CloseIsLeast(p, DirectCalls(p, body), visitor.funcs);
    r := f in visitor.funcs;
  }

  // ----- What the test means -----

  /** Somewhere in e stands a call of f. */
  ghost predicate HasCall(e: Expr, f: FuncId) {
    exists x :: x in Nodes(e) && x.Call? && x.func == f
  }

  ghost predicate AnyHasCall(es: seq<Expr>, f: FuncId) {
    exists x :: x in NodesAll(es) && x.Call? && x.func == f
  }

  ghost predicate HasSelfCall(e: Expr) {
    exists x :: x in Nodes(e) && x.CallSelf?
  }

  ghost predicate AnyHasSelfCall(es: seq<Expr>) {
    exists x :: x in NodesAll(es) && x.CallSelf?
  }

  /** The first function calls the second one, that one the third, and so on. */
  ghost predicate IsCallPath(p: Program, path: seq<FuncId>) {
    && |path| >= 2 && (forall i | 0 <= i < |path| :: p.IsUser(path[i]))
    && (forall i | 0 <= i < |path| - 1 :: HasCall(p.funcs[path[i]].kind.body, path[i + 1]))
  }

  ghost predicate CanReach(p: Program, f: FuncId, g: FuncId) {
    exists path :: IsCallPath(p, path) && path[0] == f && path[|path| - 1] == g
  }

  /** A function is recursive exactly when a self-call stands in its body or calls lead from it to itself. */
  lemma RecursiveIff(p: Program, f: FuncId)
    requires p.IsUser(f)
    ensures IsRecursive(p, f) <==> HasSelfCall(p.funcs[f].kind.body) || CanReach(p, f, f)
  {
    CallsSelfMeans(p.funcs[f].kind.body);
    hide CallsSelf, HasSelfCall;
    CallsAreUser(p, p.funcs[f].kind.body);
    if CanReach(p, f, f) {
      var path :| IsCallPath(p, path) && path[0] == f && path[|path| - 1] == f;
      PathIsCalled(p, path, |path| - 1);
    }
    CalledIsReached(p, f);
  }

  lemma {:induction false} PathIsCalled(p: Program, path: seq<FuncId>, i: nat)
    requires IsCallPath(p, path) && 0 < i < |path|
    ensures p.IsUser(path[0]) && path[i] in Called(p, p.funcs[path[0]].kind.body)
    decreases i
  {
    var g := path[i - 1];
    assert p.IsUser(g) && p.IsUser(path[i]) && HasCall(p.funcs[g].kind.body, path[i - 1 + 1]);
    DirectCallsMean(p, p.funcs[g].kind.body, path[i]);
    if i > 1 { PathIsCalled(p, path, i - 1); }
  }

  lemma CalledIsReached(p: Program, f: FuncId)
    requires p.IsUser(f)
    ensures forall g | g in Called(p, p.funcs[f].kind.body) :: CanReach(p, f, g)
  {
    var body, reached := p.funcs[f].kind.body, set g | g in UserFuncs(p) && CanReach(p, f, g);
    CallsAreUser(p, body);
    forall g | g in DirectCalls(p, body) ensures CanReach(p, f, g) {
      DirectCallsMean(p, body, g);
      assert IsCallPath(p, [f, g]);
    }
    forall g | g in reached && p.IsUser(g) ensures BodyCalls(p, g) <= reached {
      CallsAreUser(p, p.funcs[g].kind.body);
      forall h | h in BodyCalls(p, g) ensures CanReach(p, f, h) { OneFurther(p, f, g, h); }
    }
    CloseIsLeast(p, DirectCalls(p, body), reached);
  }

  lemma OneFurther(p: Program, f: FuncId, g: FuncId, h: FuncId)
    requires p.IsUser(f) && p.IsUser(g) && p.IsUser(h) && CanReach(p, f, g) && h in BodyCalls(p, g)
    ensures CanReach(p, f, h)
  {
    DirectCallsMean(p, p.funcs[g].kind.body, h);
    var path :| IsCallPath(p, path) && path[0] == f && path[|path| - 1] == g;
    assert IsCallPath(p, path + [h]);
  }

  lemma {:induction false} DirectCallsMean(p: Program, e: Expr, f: FuncId)
    ensures f in DirectCalls(p, e) <==> p.IsUser(f) && HasCall(e, f)
    decreases Size(e), 0
  {
    AllDirectCallsMean(p, Kids(e), f);
  }

  lemma {:induction false} AllDirectCallsMean(p: Program, es: seq<Expr>, f: FuncId)
    ensures f in AllDirectCalls(p, es) <==> p.IsUser(f) && AnyHasCall(es, f)
    decreases SizeAll(es), 1
  {
    if es != [] {
      DirectCallsMean(p, es[0], f);
      AllDirectCallsMean(p, es[1..], f);
    }
  }

  lemma {:induction false} CallsSelfMeans(e: Expr)
    ensures CallsSelf(e) <==> HasSelfCall(e)
    decreases Size(e), 0
  {
    AnyCallsSelfMeans(Kids(e));
  }

  lemma {:induction false} AnyCallsSelfMeans(es: seq<Expr>)
    ensures AnyCallsSelf(es) <==> AnyHasSelfCall(es)
    decreases SizeAll(es), 1
  {
    if es != [] {
      CallsSelfMeans(es[0]);
      AnyCallsSelfMeans(es[1..]);
    }
  }
}
