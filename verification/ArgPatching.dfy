/** Default arguments: every call that leaves out optional arguments gets copies of their initialisers,
    which may leave out arguments themselves. */
module ArgPatching {
  import opened Lang

  /** The source-location intrinsics. */
  datatype Loc = File | Line | Column

  /** Calls, the literals that replace source-location calls, and everything else. */
  datatype Node =
    | Invoke(func: nat, args: seq<Node>, src: Option<nat>)
    | SourceLit(loc: Loc, at: nat)
    | Other(tag: nat, kids: seq<Node>)

  /** The last inputs of a function can have initialisers. */
  datatype Callee = Callee(inputs: nat, inits: seq<Node>, loc: Option<Loc>)

  const MAX_DEPTH: nat := 100

  function CalleeOf(p: seq<Callee>, f: nat): Callee {
    if f < |p| then p[f] else Callee(0, [], None)
  }

  function Size(e: Node): (r: nat)
    ensures r > 0
    decreases e, 1
  {
    match e
    case Invoke(_, args, _) => 1 + SizeAll(args)
    case SourceLit(_, _) => 1
    case Other(_, kids) => 1 + SizeAll(kids)
  }

  function SizeAll(es: seq<Node>): nat
    decreases es, 0
  {
    if es == [] then 0 else Size(es[0]) + SizeAll(es[1..])
  }

  /** Fewer arguments than inputs without initialisers, or too many. */
  predicate TooFew(p: seq<Callee>, e: Node)
    requires e.Invoke?
  {
    var c := CalleeOf(p, e.func);
    |e.args| > c.inputs || c.inputs - |e.args| > |c.inits|
  }

  predicate Omits(p: seq<Callee>, e: Node)
    requires e.Invoke?
  {
    |e.args| != CalleeOf(p, e.func).inputs
  }

  /** The supplied arguments, then the initialisers of the omitted ones. */
  function Completed(p: seq<Callee>, e: Node): (r: seq<Node>)
    requires e.Invoke? && !TooFew(p, e)
    ensures |r| == CalleeOf(p, e.func).inputs && (!Omits(p, e) ==> r == e.args)
  {
    var c := CalleeOf(p, e.func);
    e.args + c.inits[|c.inits| - (c.inputs - |e.args|)..]
  }

  // ----- The pass, as a function of its state -----

  /** `root` is the call whose location source-location intrinsics answer. */
  datatype State = State(depth: nat, root: Option<nat>, reports: nat)

  datatype Outcome<+T> = Done(val: T, st: State) | Thrown

  function Room(st: State): nat {
    if st.depth <= MAX_DEPTH then MAX_DEPTH + 1 - st.depth else 0
  }

  predicate IsRoot(p: seq<Callee>, st: State, e: Node)
    requires e.Invoke?
  {
    Omits(p, e) && e.src.Some? && st.root.None?
  }

  function LocPatched(p: seq<Callee>, src: nat, e: Node): Node {
    if e.Invoke? && CalleeOf(p, e.func).loc.Some? then SourceLit(CalleeOf(p, e.func).loc.value, src) else e
  }

  function AllLocsPatched(p: seq<Callee>, root: Option<nat>, es: seq<Node>): seq<Node> {
    if root.None? then es else seq(|es|, i requires 0 <= i < |es| => LocPatched(p, root.value, es[i]))
  }

  function Visit(p: seq<Callee>, st: State, e: Node): (r: Outcome<Node>)
    ensures r.Done? ==> r.st.depth >= st.depth && r.st.reports >= st.reports
    decreases Room(st), Size(e), 1
  {
    match e
    case SourceLit(_, _) => Done(e, st)
    case Other(tag, kids) =>
      (match VisitAll(p, st, kids)
       case Thrown => Thrown
       case Done(ks, s) => Done(Other(tag, ks), s))
    case Invoke(_, _, _) => VisitCall(p, st, e)
  }

  function VisitCall(p: seq<Callee>, st: State, e: Node): (r: Outcome<Node>)
    requires e.Invoke?
    ensures r.Done? ==> r.st.depth >= st.depth && r.st.reports >= st.reports
    decreases Room(st), Size(e), 0
  {
    if TooFew(p, e) then Thrown
    else
      var s1 := if IsRoot(p, st, e) then st.(root := e.src) else st;
      if Omits(p, e) && s1.depth + 1 > MAX_DEPTH then
        Done(e.(args := Completed(p, e)), s1.(depth := s1.depth + 1, reports := s1.reports + 1))
      else
        var s2 := if Omits(p, e) then s1.(depth := s1.depth + 1) else s1;
        match VisitAll(p, s2, Completed(p, e))
        case Thrown => Thrown
        case Done(ks, s3) =>
          var s4 := if IsRoot(p, st, e) then s3.(root := None) else s3;
          Done(e.(args := AllLocsPatched(p, s3.root, ks)), if Omits(p, e) then s4.(depth := s4.depth - 1) else s4)
  }

  function VisitAll(p: seq<Callee>, st: State, es: seq<Node>): (r: Outcome<seq<Node>>)
    ensures r.Done? ==> |r.val| == |es| && r.st.depth >= st.depth && r.st.reports >= st.reports
    decreases Room(st), SizeAll(es), 2
  {
    if es == [] then Done([], st)
    else
      match Visit(p, st, es[0])
      case Thrown => Thrown
      case Done(k, s1) =>
        match VisitAll(p, s1, es[1..])
        case Thrown => Thrown
        case Done(ks, s2) => Done([k] + ks, s2)
  }

  // ----- What a completed call is -----

  /** The root that a call's arguments see. */
  function RootOf(p: seq<Callee>, root: Option<nat>, e: Node): Option<nat>
    requires e.Invoke?
  {
    if root.None? && Omits(p, e) then e.src else root
  }

  /** e2 is e with every call inside it completed: it has exactly its declared arguments, the supplied
      ones first, and each omitted one is its own initialiser, completed as well. */
  ghost predicate Filled(p: seq<Callee>, root: Option<nat>, e: Node, e2: Node)
    decreases e2, 2
  {
    match e2
    case SourceLit(_, _) => e == e2
    case Other(tag, kids2) => e.Other? && e.tag == tag && FilledAll(p, root, e.kids, kids2)
    case Invoke(f, args2, src) =>
      && e.Invoke? && e.func == f && e.src == src && !TooFew(p, e) && |args2| == CalleeOf(p, f).inputs
      && forall i | 0 <= i < |args2| :: FilledArg(p, RootOf(p, root, e), ArgFor(p, e, i), args2[i])
  }

  /** Where the i-th argument comes from. */
  function ArgFor(p: seq<Callee>, e: Node, i: nat): Node
    requires e.Invoke? && !TooFew(p, e) && i < CalleeOf(p, e.func).inputs
  {
    var c := CalleeOf(p, e.func);
    if i < |e.args| then e.args[i] else c.inits[i - (c.inputs - |c.inits|)]
  }

  /** Inside a call that omits arguments, direct source-location arguments are its own location. */
  ghost predicate FilledArg(p: seq<Callee>, root: Option<nat>, e: Node, e2: Node)
    decreases e2, 3
  {
    if root.Some? && e.Invoke? && CalleeOf(p, e.func).loc.Some?
    then e2 == SourceLit(CalleeOf(p, e.func).loc.value, root.value)
    else Filled(p, root, e, e2)
  }

  ghost predicate FilledAll(p: seq<Callee>, root: Option<nat>, es: seq<Node>, es2: seq<Node>)
    decreases es2, 2
  {
    |es| == |es2| && forall i | 0 <= i < |es2| :: Filled(p, root, es[i], es2[i])
  }

  /** Every call has its declared number of arguments. */
  predicate Complete(p: seq<Callee>, e: Node) {
    match e
    case SourceLit(_, _) => true
    case Other(_, kids) => forall k | k in kids :: Complete(p, k)
    case Invoke(f, args, _) => |args| == CalleeOf(p, f).inputs && forall a | a in args :: Complete(p, a)
  }

  lemma {:induction false} FilledIsComplete(p: seq<Callee>, root: Option<nat>, e: Node, e2: Node)
    requires Filled(p, root, e, e2)
    ensures Complete(p, e2)
    decreases e2
  {
    match e2
    case SourceLit(_, _) =>
    case Other(_, kids2) =>
      forall i | 0 <= i < |kids2| ensures Complete(p, kids2[i]) { FilledIsComplete(p, root, e.kids[i], kids2[i]); }
    case Invoke(_, args2, _) =>
      forall i | 0 <= i < |args2| ensures Complete(p, args2[i]) {
        assert FilledArg(p, RootOf(p, root, e), ArgFor(p, e, i), args2[i]);
        if !args2[i].SourceLit? { FilledIsComplete(p, RootOf(p, root, e), ArgFor(p, e, i), args2[i]); }
      }
  }

  /** There is only one way to complete a tree. */
  lemma {:induction false} FilledIsUnique(p: seq<Callee>, root: Option<nat>, e: Node, a: Node, b: Node)
    requires Filled(p, root, e, a) && Filled(p, root, e, b)
    ensures a == b
    decreases a
  {
    match a
    case SourceLit(_, _) =>
    case Other(_, kids) =>
      forall i | 0 <= i < |kids| ensures kids[i] == b.kids[i] { FilledIsUnique(p, root, e.kids[i], kids[i], b.kids[i]); }
      assert kids == b.kids;
    case Invoke(_, args, _) =>
      forall i | 0 <= i < |args| ensures args[i] == b.args[i] {
        var r, from := RootOf(p, root, e), ArgFor(p, e, i);
        assert FilledArg(p, r, from, args[i]) && FilledArg(p, r, from, b.args[i]);
        if !(r.Some? && from.Invoke? && CalleeOf(p, from.func).loc.Some?) {
          FilledIsUnique(p, r, from, args[i], b.args[i]);
        }
      }
      assert args == b.args;
  }

  // ----- The pass completes every call -----

  /** Without a report the pass leaves its state alone and completes every call. */
  lemma {:induction false} VisitFills(p: seq<Callee>, st: State, e: Node)
    requires Visit(p, st, e).Done? && Visit(p, st, e).st.reports == st.reports
    ensures Visit(p, st, e).st == st && Filled(p, st.root, e, Visit(p, st, e).val)
    decreases Room(st), Size(e), 0
  {
    match e
    case SourceLit(_, _) =>
    case Other(_, kids) => VisitAllFills(p, st, kids);
    case Invoke(_, _, _) =>
      var s1 := if IsRoot(p, st, e) then st.(root := e.src) else st;
      var s2 := if Omits(p, e) then s1.(depth := s1.depth + 1) else s1;
      var all := Completed(p, e);
      VisitAllFills(p, s2, all);
      CallFilled(p, st, e, VisitAll(p, s2, all).val);
  }

  lemma CallFilled(p: seq<Callee>, st: State, e: Node, ks: seq<Node>)
    requires e.Invoke? && !TooFew(p, e) && FilledAll(p, RootOf(p, st.root, e), Completed(p, e), ks)
    ensures Filled(p, st.root, e, e.(args := AllLocsPatched(p, RootOf(p, st.root, e), ks)))
  {
    var root := RootOf(p, st.root, e);
    var args2 := AllLocsPatched(p, root, ks);
    forall i | 0 <= i < |args2| ensures FilledArg(p, root, ArgFor(p, e, i), args2[i]) {
      assert Completed(p, e)[i] == ArgFor(p, e, i) && Filled(p, root, ArgFor(p, e, i), ks[i]);
    }
  }

  lemma {:induction false} VisitAllFills(p: seq<Callee>, st: State, es: seq<Node>)
    requires VisitAll(p, st, es).Done? && VisitAll(p, st, es).st.reports == st.reports
    ensures VisitAll(p, st, es).st == st && FilledAll(p, st.root, es, VisitAll(p, st, es).val)
    decreases Room(st), SizeAll(es), 1
  {
    if es != [] {
      VisitFills(p, st, es[0]);
      VisitAllFills(p, st, es[1..]);
      var k, ks := Visit(p, st, es[0]).val, VisitAll(p, st, es[1..]).val;
      assert VisitAll(p, st, es).val == [k] + ks;
      forall i | 0 <= i < |es| ensures Filled(p, st.root, es[i], ([k] + ks)[i]) {
        if i > 0 { assert es[i] == es[1..][i - 1]; }
      }
    }
  }

  // ----- When it reports -----

  /** Completing e passes through at most n calls that omit arguments, one inside the other. */
  predicate Within(p: seq<Callee>, e: Node, n: nat)
    decreases n, Size(e), 0
  {
    match e
    case SourceLit(_, _) => true
    case Other(_, kids) => AllWithin(p, kids, n)
    case Invoke(_, args, _) =>
      if TooFew(p, e) then false
      else if Omits(p, e) then n > 0 && AllWithin(p, Completed(p, e), n - 1)
      else AllWithin(p, args, n)
  }

  predicate AllWithin(p: seq<Callee>, es: seq<Node>, n: nat)
    decreases n, SizeAll(es), 1
  {
    es == [] || (Within(p, es[0], n) && AllWithin(p, es[1..], n))
  }

  /** The pass goes through without a report exactly when the nesting stays within the bound. */
  lemma {:induction false} ReportsIff(p: seq<Callee>, st: State, e: Node)
    requires st.depth <= MAX_DEPTH
    ensures Visit(p, st, e).Done? && Visit(p, st, e).st.reports == st.reports <==> Within(p, e, MAX_DEPTH - st.depth)
    decreases Room(st), Size(e), 0
  {
    match e
    case SourceLit(_, _) =>
    case Other(_, kids) => AllReportsIff(p, st, kids);
    case Invoke(_, args, _) =>
      if !TooFew(p, e) && !(Omits(p, e) && st.depth == MAX_DEPTH) {
        var s1 := if IsRoot(p, st, e) then st.(root := e.src) else st;
        var s2 := if Omits(p, e) then s1.(depth := s1.depth + 1) else s1;
        AllReportsIff(p, s2, Completed(p, e));
      }
  }

  lemma {:induction false} AllReportsIff(p: seq<Callee>, st: State, es: seq<Node>)
    requires st.depth <= MAX_DEPTH
    ensures VisitAll(p, st, es).Done? && VisitAll(p, st, es).st.reports == st.reports
       <==> AllWithin(p, es, MAX_DEPTH - st.depth)
    decreases Room(st), SizeAll(es), 1
  {
    if es != [] {
      ReportsIff(p, st, es[0]);
      if Within(p, es[0], MAX_DEPTH - st.depth) {
        VisitFills(p, st, es[0]);
        AllReportsIff(p, st, es[1..]);
      }
    }
  }

  const START := State(0, None, 0)

  /** The main theorem: the pass ends for every program. It reports nothing exactly when at most a
      hundred calls that omit arguments lie one inside the other, and then its result is the one
      completion of the tree. */
  lemma PatchIsCorrect(p: seq<Callee>, e: Node)
    ensures Visit(p, START, e).Done? && Visit(p, START, e).st.reports == 0 <==> Within(p, e, MAX_DEPTH)
    ensures Within(p, e, MAX_DEPTH) ==>
              && Visit(p, START, e).st == START && Complete(p, Visit(p, START, e).val)
              && forall e2 :: Filled(p, None, e, e2) <==> e2 == Visit(p, START, e).val
  {
    ReportsIff(p, START, e);
    if Within(p, e, MAX_DEPTH) {
      VisitFills(p, START, e);
      var r := Visit(p, START, e).val;
      FilledIsComplete(p, None, e, r);
      forall e2 | Filled(p, None, e, e2) ensures e2 == r { FilledIsUnique(p, None, e, e2, r); }
    }
  }

  // ----- The bound is not about cycles -----

  /** A function of two inputs, the second one with a constant initialiser. */
  const NO_CYCLE: seq<Callee> := [Callee(2, [Other(0, [])], None)]

  /** n calls, each the only argument of the next. */
  function Nest(n: nat): Node {
    if n == 0 then Other(1, []) else Invoke(0, [Nest(n - 1)], None)
  }

  lemma {:induction false} NestWithin(n: nat, m: nat)
    ensures Within(NO_CYCLE, Nest(n), m) <==> n <= m
    decreases n
  {
    assert NO_CYCLE[0] == Callee(2, [Other(0, [])], None);
    if n == 0 {
      assert AllWithin(NO_CYCLE, [], m);
    } else {
      var e := Nest(n);
      assert e == Invoke(0, [Nest(n - 1)], None) && !TooFew(NO_CYCLE, e) && Omits(NO_CYCLE, e);
      assert Completed(NO_CYCLE, e) == [Nest(n - 1), Other(0, [])];
      if m > 0 {
        NestWithin(n - 1, m - 1);
        assert [Nest(n - 1), Other(0, [])][1..] == [Other(0, [])] && [Other(0, [])][1..] == [];
        assert Within(NO_CYCLE, Other(0, []), m - 1) && AllWithin(NO_CYCLE, [Other(0, [])], m - 1);
      }
    }
  }

  /** Calls that merely stand one inside the other are reported as a cycle when there are more than a
      hundred of them, although no initialiser contains a call. */
  lemma DeepNestIsReported(n: nat)
    ensures Visit(NO_CYCLE, START, Nest(n)).Done? && Visit(NO_CYCLE, START, Nest(n)).st.reports == 0 <==> n <= 100
  {
    ReportsIff(NO_CYCLE, START, Nest(n));
    NestWithin(n, MAX_DEPTH);
  }

  // ----- The visitor as it runs -----

  class PatchOptArgsVisitor {
    const prog: seq<Callee>
    var optArgRecurseDepth: nat
    var rootSrcId: Option<nat>
    var reports: nat

    constructor (prog: seq<Callee>)
      ensures this.prog == prog && Now() == START
    {
      this.prog := prog;
      optArgRecurseDepth, rootSrcId, reports := 0, None, 0;
    }

    ghost function Now(): State
      reads this
    {
      State(optArgRecurseDepth, rootSrcId, reports)
    }

    /** The visited tree; nothing when an exception was thrown. */
    method VisitNode(e: Node) returns (r: Option<Node>)
      modifies this
      ensures r.Some? ==> Visit(prog, old(Now()), e) == Done(r.value, Now())
      ensures r.None? ==> Visit(prog, old(Now()), e).Thrown?
      decreases Room(Now()), Size(e), 1
    {
      match e
      case SourceLit(_, _) => r := Some(e);
      case Other(tag, kids) =>
        var ks := VisitKids(kids);
        r := if ks.Some? then Some(Other(tag, ks.value)) else None;
      case Invoke(_, _, _) => r := VisitCallExpr(e);
    }

    method VisitKids(es: seq<Node>) returns (r: Option<seq<Node>>)
      modifies this
      ensures r.Some? ==> VisitAll(prog, old(Now()), es) == Done(r.value, Now())
      ensures r.None? ==> VisitAll(prog, old(Now()), es).Thrown?
      decreases Room(Now()), SizeAll(es), 2
    {
      var ks: seq<Node> := [];
      ghost var start, total := Now(), VisitAll(prog, Now(), es);
      WholeRest(es, total);
      for i := 0 to |es|
        invariant Now().depth >= start.depth
        invariant total == Behind(ks, VisitAll(prog, Now(), es[i..]))
        invariant SizeAll(es[i..]) <= SizeAll(es)
      {
        OneLess(es, i);
        ghost var before := VisitAll(prog, Now(), es[i..]);
        var k := VisitNode(es[i]);
        if k.None? { return None; }
        OneVisited(ks, k.value, VisitAll(prog, Now(), es[i + 1..]));
        ks := ks + [k.value];
      }
      assert es[|es|..] == [] && ks + [] == ks;
      r := Some(ks);
    }

    method VisitCallExpr(n: Node) returns (r: Option<Node>)
      requires n.Invoke?
      modifies this
      ensures r.Some? ==> VisitCall(prog, old(Now()), n) == Done(r.value, Now())
      ensures r.None? ==> VisitCall(prog, old(Now()), n).Thrown?
      decreases Room(Now()), Size(n), 0
    {
      // Apply any optional argument initializers.
      var callee := CalleeOf(prog, n.func);
      var hadOptArgs, args := false, n.args;
      if |args| != callee.inputs {
        if |args| > callee.inputs || callee.inputs - |args| > |callee.inits| { return None; }
        var toSkip := |callee.inits| - (callee.inputs - |args|);
        for i := 0 to callee.inputs - |n.args|
          invariant args == n.args + callee.inits[toSkip..toSkip + i] && hadOptArgs == (i > 0)
        {
          args := args + [callee.inits[toSkip + i]];
          hadOptArgs := true;
          assert callee.inits[toSkip..toSkip + i + 1] == callee.inits[toSkip..toSkip + i] + [callee.inits[toSkip + i]];
        }
      }
      assert args == Completed(prog, n) && hadOptArgs == Omits(prog, n);

      var isSrcIdRoot := hadOptArgs && n.src.Some? && rootSrcId.None?;
      if isSrcIdRoot {
        rootSrcId := n.src;
      }
      if hadOptArgs {
        optArgRecurseDepth := optArgRecurseDepth + 1;
        if optArgRecurseDepth > MAX_DEPTH {
          reports := reports + 1;
          return Some(n.(args := args));
        }
      }

      var kids := VisitKids(args);
      if kids.None? { return None; }
      var newArgs := kids.value;
      if rootSrcId.Some? {
        newArgs := PatchLocations(newArgs, rootSrcId.value);
      }
      if isSrcIdRoot {
        rootSrcId := None;
      }
      if hadOptArgs {
        optArgRecurseDepth := optArgRecurseDepth - 1;
      }
      r := Some(n.(args := newArgs));
    }

    /** The source-location intrinsics among some arguments. */
    method PatchLocations(args0: seq<Node>, src: nat) returns (args: seq<Node>)
      ensures args == AllLocsPatched(prog, Some(src), args0)
    {
      args := args0;
      for i := 0 to |args0|
        invariant |args| == |args0|
        invariant forall k | 0 <= k < |args0| :: args[k] == if k < i then LocPatched(prog, src, args0[k]) else args0[k]
      {
        var expr := args[i];
        if expr.Invoke? {
          var loc := CalleeOf(prog, expr.func).loc;
          if loc.Some? {
            args := args[i := SourceLit(loc.value, src)];
          }
        }
      }
    }
  }

  function Behind(first: seq<Node>, r: Outcome<seq<Node>>): Outcome<seq<Node>> {
    match r
    case Thrown => Thrown
    case Done(rest, st) => Done(first + rest, st)
  }

  lemma WholeRest(es: seq<Node>, r: Outcome<seq<Node>>)
    ensures es[0..] == es && Behind([], r) == r
  {
    if r.Done? { assert [] + r.val == r.val; }
  }

  lemma OneLess(es: seq<Node>, i: nat)
    requires i < |es|
    ensures es[i..][0] == es[i] && es[i..][1..] == es[i + 1..]
    ensures SizeAll(es[i..]) == Size(es[i]) + SizeAll(es[i + 1..])
  {
    assert es[i..][1..] == es[i + 1..];
  }

  lemma OneVisited(first: seq<Node>, k: Node, r: Outcome<seq<Node>>)
    ensures r.Done? ==> Behind(first, Done([k] + r.val, r.st)) == Behind(first + [k], r)
  {
    if r.Done? { assert first + ([k] + r.val) == first + [k] + r.val; }
  }
}
