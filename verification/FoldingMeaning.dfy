/** Precomputing preserves the meaning of programs, except in three cases that are told apart here. */
module FoldingMeaning {
  import opened Lang
  import opened Trees
  import opened Purity
  import opened Effects
  import opened Folding
  import opened Arithmetic

  // ----- Where the rewriter is right -----

  /** Shifting a negative literal right gives another result than the machine gives. */
  predicate ShiftIsRight(op: BinOp, a: int, b: int) {
    op.ShiftRightInt? ==> a >= 0 || b == 0
  }

  /** For 32 bit operands a precomputed operation agrees with the machine exactly then. */
  lemma PrecomputedIsRightIff(op: BinOp, a: int, b: int)
    requires Int32(a) && Int32(b)
    requires ApplyBin(op, a, b).Some?
    ensures PrecomputedBin(op, a, b) == ApplyBin(op, a, b) <==> ShiftIsRight(op, a, b)
  {
    if op.ShiftRightInt? {
      var n := Unsigned(b);
      assert n == 0 <==> b == 0;
      if n > 0 { PowAtLeastTwo(n); }
      ShiftDiffers(a, Pow2(n));
    }
  }

  /** -8 shifted right by 1 is precomputed as -4; the machine shifts in a zero. */
  lemma ShiftCanBeWrong()
    ensures PrecomputedBin(ShiftRightInt, -8, 1) == Some(-4)
    ensures ApplyBin(ShiftRightInt, -8, 1) == Some(0x7FFF_FFFC)
  {
    assert Pow2(1) == 2 by { assert Pow2(0) == 1; }
  }

  lemma PowAtLeastTwo(n: nat)
    requires n > 0
    ensures Pow2(n) >= 2
  {}

  lemma ShiftDiffers(a: int, d: int)
    requires Int32(a) && d >= 1
    ensures Wrap(Unsigned(a) / d) == a / d <==> a >= 0 || d == 1
  {
    var u := Unsigned(a);
    DivBounds(u, d);
    var q := u / d;
    if a >= 0 {
      assert u == a && Wrap(q) == q;
    } else {
      assert u == a + 0x1_0000_0000;
      if d == 1 {
        assert q == u && a / d == a;
      } else {
        assert Wrap(q) == q >= 0;
        DivNegative(a, d);
      }
    }
  }

  lemma DivBounds(u: nat, d: int)
    requires d >= 1
    ensures 0 <= u / d <= u && (d >= 2 ==> 2 * (u / d) <= u)
  {
    var q := u / d;
    assert d * q <= u;
    if d >= 2 { assert 2 * q <= d * q; }
  }

  lemma DivNegative(a: int, d: int)
    requires a < 0 && d >= 1
    ensures a / d < 0
  {}

  /** Before the first condition that is literally true there are only literally false ones. */
  predicate ExitsFirst(cs: seq<Expr>) {
    cs == [] || cs[0] == LitBool(true)
    || (if cs[0] == LitBool(false) then ExitsFirst(cs[1..]) else NeverTrue(cs))
  }

  predicate NeverTrue(cs: seq<Expr>) {
    forall c | c in cs :: c != LitBool(true)
  }

  /** Every operand but one can be left out. */
  predicate OthersMovable(p: Program, sc: Scope, es: seq<Expr>, i: nat) {
    forall j | 0 <= j < |es| && j != i :: Movable(p, sc, es[j])
  }

  /** Literals have 32 bits. */
  predicate FoldsRight(op: BinOp, a: int, b: int) {
    ShiftIsRight(op, a, b) && (op.ShiftRightInt? ==> Int32(a) && Int32(b))
  }

  /** The rewriter is right about this node. */
  predicate SafeNode(p: Program, k: Known, sc: Scope, e: Expr) {
    match e
    case Call(f, args) =>
      var ks := FoldedAll(p, k, args);
      f < |p.funcs| && p.funcs[f].kind.Binary? && |args| == 2 && AllInts(ks)
      ==> FoldsRight(p.funcs[f].kind.bop, ks[0].i, ks[1].i)
    case Switch(cs, _) => ExitsFirst(FoldedAll(p, k, cs))
    case Field(_, lhs, index) => MakesStruct(p, lhs) && index < |lhs.args| ==> OthersMovable(p, sc, lhs.args, index)
    case _ => true
  }

  predicate Safe(p: Program, k: Known, sc: Scope, e: Expr)
    decreases Size(e), 0
  {
    SafeNode(p, k, sc, e) && AllSafe(p, k, sc, Kids(e))
  }

  predicate AllSafe(p: Program, k: Known, sc: Scope, es: seq<Expr>)
    decreases SizeAll(es), 1
  {
    es == [] || (Safe(p, k, sc, es[0]) && AllSafe(p, k, sc, es[1..]))
  }

  predicate KnowsRight(p: Program, k: Known) {
    k.eqZero < |p.funcs| && p.funcs[k.eqZero] == FuncDecl(Unary(CheckIntZero), false)
  }

  ghost predicate Ready(p: Program, k: Known) {
    KnowsRight(p, k) && forall f | 0 <= f < |p.funcs| && p.IsUser(f) :: Safe(p, k, FuncScope(p, f), p.funcs[f].kind.body)
  }

  function FoldedFunc(p: Program, k: Known, f: FuncId): FuncDecl
    requires f < |p.funcs|
  {
    if p.IsUser(f) then
      FuncDecl(User(p.funcs[f].kind.consts, Folded(p, k, p.funcs[f].kind.body)), p.funcs[f].isAction)
    else p.funcs[f]
  }

  function FoldedProgram(p: Program, k: Known): Program {
    p.(funcs := seq(|p.funcs|, f requires 0 <= f < |p.funcs| => FoldedFunc(p, k, f)))
  }

  lemma SafeCat(p: Program, k: Known, sc: Scope, a: seq<Expr>, b: seq<Expr>)
    ensures AllSafe(p, k, sc, a + b) <==> AllSafe(p, k, sc, a) && AllSafe(p, k, sc, b)
    decreases a
  {
    if a == [] {
      assert a + b == b;
    } else {
      assert (a + b)[1..] == a[1..] + b;
      SafeCat(p, k, sc, a[1..], b);
    }
  }

  lemma SafeAt(p: Program, k: Known, sc: Scope, es: seq<Expr>, i: nat)
    requires AllSafe(p, k, sc, es) && i < |es|
    ensures Safe(p, k, sc, es[i]) && FoldedAll(p, k, es)[i] == Folded(p, k, es[i])
    decreases es
  {
    if i > 0 { SafeAt(p, k, sc, es[1..], i - 1); }
  }

  lemma FoldedCat(p: Program, k: Known, a: seq<Expr>, b: seq<Expr>)
    ensures FoldedAll(p, k, a + b) == FoldedAll(p, k, a) + FoldedAll(p, k, b)
    decreases a
  {
    if a == [] {
      assert a + b == b;
    } else {
      assert (a + b)[1..] == a[1..] + b;
      FoldedCat(p, k, a[1..], b);
    }
  }

  lemma FoldedOne(p: Program, k: Known, sc: Scope, e: Expr)
    ensures FoldedAll(p, k, [e]) == [Folded(p, k, e)] && (AllSafe(p, k, sc, [e]) ==> Safe(p, k, sc, e))
  {
    assert [e][1..] == [];
    if AllSafe(p, k, sc, [e]) { SafeAt(p, k, sc, [e], 0); }
  }

  // ----- Intrinsics on rewritten arguments -----

  lemma IntsEval(p: Program, sc: Scope, fuel: nat, es: seq<Expr>, env: Env, w: World)
    requires AllInts(es)
    ensures var r := EvalAll(p, sc, fuel, es, env, w);
            r.Ok? && r.env == env && r.world == w && forall i :: 0 <= i < |es| ==> r.val[i] == VInt(es[i].i)
    decreases |es|
  {
    if es != [] {
      assert es[0] in es;
      assert forall x | x in es[1..] :: x in es;
      IntsEval(p, sc, fuel, es[1..], env, w);
    }
  }

  lemma IntrinsicMeans(
    p: Program, p2: Program, k: Known, sc: Scope, fuel: nat, f: FuncId, args: seq<Expr>, env: Env, w: World)
    requires SameFuncs(p, p2) && KnowsRight(p, k) && f < |p.funcs|
    requires Eval(p2, sc, fuel, Call(f, args), env, w).Ok?
    requires p.funcs[f].kind.Binary? && |args| == 2 && AllInts(args)
             ==> FoldsRight(p.funcs[f].kind.bop, args[0].i, args[1].i)
    ensures Eval(p2, sc, fuel, FoldedIntrinsic(p, k, f, args), env, w) == Eval(p2, sc, fuel, Call(f, args), env, w)
  {
    assert SameFunc(p.funcs[f], p2.funcs[f]);
    var r := EvalAll(p2, sc, fuel, args, env, w);
    match p.funcs[f].kind
    case Binary(op) =>
      if |args| == 2 {
        if AllInts(args) {
          IntsEval(p2, sc, fuel, args, env, w);
          BinMeans(op, args[0].i, args[1].i);
        } else if op.CheckEqInt? {
          ZeroTest(p, p2, k, sc, fuel, f, args, env, w);
        }
      }
    case Unary(op) => if |args| == 1 && AllInts(args) { IntsEval(p2, sc, fuel, args, env, w); }
    case NoOp =>
      if |args| == 1 {
        assert args == [args[0]];
        assert Eval(p2, sc, fuel, args[0], env, w).Ok?;
        AllOfOne(p2, sc, fuel, args[0], env, w);
      }
    case _ =>
  }

  /** Without sign trouble a precomputed operation is the machine's. */
  lemma BinMeans(op: BinOp, a: int, b: int)
    requires ApplyBin(op, a, b).Some? && FoldsRight(op, a, b)
    ensures PrecomputedBin(op, a, b) == ApplyBin(op, a, b)
  {
    if op.ShiftRightInt? { PrecomputedIsRightIff(op, a, b); }
  }

  /** Comparing with a literal zero is the test for zero. */
  lemma ZeroTest(
    p: Program, p2: Program, k: Known, sc: Scope, fuel: nat, f: FuncId, args: seq<Expr>, env: Env, w: World)
    requires SameFuncs(p, p2) && KnowsRight(p, k) && f < |p.funcs| && p.funcs[f].kind == Binary(CheckEqInt)
    requires |args| == 2 && Eval(p2, sc, fuel, Call(f, args), env, w).Ok?
    ensures args[1] == LitInt(0) ==>
              Eval(p2, sc, fuel, Call(k.eqZero, [args[0]]), env, w) == Eval(p2, sc, fuel, Call(f, args), env, w)
    ensures args[0] == LitInt(0) ==>
              Eval(p2, sc, fuel, Call(k.eqZero, [args[1]]), env, w) == Eval(p2, sc, fuel, Call(f, args), env, w)
  {
    assert SameFunc(p.funcs[f], p2.funcs[f]) && SameFunc(p.funcs[k.eqZero], p2.funcs[k.eqZero]);
    assert args == [args[0], args[1]] && args[1..] == [args[1]];
    var r := Eval(p2, sc, fuel, args[0], env, w);
    assert EvalAll(p2, sc, fuel, args, env, w).Ok?;
    assert EvalAll(p2, sc, fuel, args[1..], r.env, r.world).Ok?;
    assert Eval(p2, sc, fuel, args[1], r.env, r.world).Ok?;
    AllOfTwo(p2, sc, fuel, args[0], args[1], env, w);
    AllOfOne(p2, sc, fuel, args[0], env, w);
    AllOfOne(p2, sc, fuel, args[1], r.env, r.world);
  }

  // ----- Switches -----

  /** The branch a list of arms selects: the result of the conditions and where they lead. */
  lemma {:induction false} PrunedMeans(
    p: Program, sc: Scope, fuel: nat, cs: seq<Expr>, bs: seq<Expr>, env: Env, w: World)
    requires |bs| == |cs| + 1 && ExitsFirst(cs) && EvalConds(p, sc, fuel, cs, env, w).Ok?
    ensures var r := EvalConds(p, sc, fuel, cs, env, w);
            match Pruned(cs, bs)
            case Exit(b) => b == bs[r.val] && r.env == env && r.world == w
            case Left(cs1, bs1) =>
              var r1 := EvalConds(p, sc, fuel, cs1, env, w);
              r1.Ok? && r1.env == r.env && r1.world == r.world && bs1[r1.val] == bs[r.val]
    decreases |cs|
  {
    hide Intrinsic, ApplyUn, NeverTrue, EvalAll, Lookups, Ints, HasType, ApplyBin, Return, FuncScope;
    if cs != [] && cs[0] != LitBool(true) {
      if cs[0] == LitBool(false) {
        PrunedMeans(p, sc, fuel, cs[1..], bs[1..], env, w);
      } else {
        NeverTrueRest(cs);
        NeverExits(cs[1..], bs[1..]);
        var rest := Pruned(cs[1..], bs[1..]);
        var cs1, bs1 := [cs[0]] + rest.conds, [bs[0]] + rest.branches;
        assert Pruned(cs, bs) == Left(cs1, bs1) && cs1[1..] == rest.conds;
        var r := Eval(p, sc, fuel, cs[0], env, w);
        if r.val.i == 0 {
          NeverTrueExits(cs[1..]);
          PrunedMeans(p, sc, fuel, cs[1..], bs[1..], r.env, r.world);
          var r1 := EvalConds(p, sc, fuel, rest.conds, r.env, r.world);
          assert EvalConds(p, sc, fuel, cs1, env, w) == Ok(1 + r1.val, r1.env, r1.world);
          assert bs1[1 + r1.val] == rest.branches[r1.val];
        }
      }
    }
  }

  lemma {:induction false} NeverExits(cs: seq<Expr>, bs: seq<Expr>)
    requires |bs| == |cs| + 1 && NeverTrue(cs)
    ensures Pruned(cs, bs).Left?
    decreases |cs|
  {
    if cs != [] {
      NeverTrueRest(cs);
      NeverExits(cs[1..], bs[1..]);
    }
  }

  lemma NeverTrueRest(cs: seq<Expr>)
    requires NeverTrue(cs) && cs != []
    ensures cs[0] != LitBool(true) && NeverTrue(cs[1..])
  {
    assert cs[0] in cs;
    assert forall c | c in cs[1..] :: c in cs;
  }

  lemma {:induction false} NeverTrueExits(cs: seq<Expr>)
    requires NeverTrue(cs)
    ensures ExitsFirst(cs)
    decreases |cs|
  {
    if cs != [] {
      NeverTrueRest(cs);
      NeverTrueExits(cs[1..]);
    }
  }

  lemma SwitchMeans(p: Program, sc: Scope, fuel: nat, cs: seq<Expr>, bs: seq<Expr>, env: Env, w: World)
    requires cs != [] && |bs| == |cs| + 1 && ExitsFirst(cs) && Eval(p, sc, fuel, Switch(cs, bs), env, w).Ok?
    ensures Eval(p, sc, fuel, SwitchOf(Pruned(cs, bs)), env, w) == Eval(p, sc, fuel, Switch(cs, bs), env, w)
  {
    PrunedMeans(p, sc, fuel, cs, bs, env, w);
  }

  /** When some condition is left before a literally true one, the rewriter answers the branch of the
      true one. In a run in which that one is reached at all, this is the branch the program takes
      exactly when all the conditions before it turn out false. */
  lemma {:induction false} TrueExitIsRightIff(
    p: Program, sc: Scope, fuel: nat, cs: seq<Expr>, bs: seq<Expr>, i: nat, env: Env, w: World)
    requires |bs| == |cs| + 1 && i < |cs| && cs[i] == LitBool(true) && NeverTrue(cs[..i])
    requires EvalConds(p, sc, fuel, cs, env, w).Ok?
    ensures Pruned(cs, bs) == Exit(bs[i])
    ensures EvalConds(p, sc, fuel, cs, env, w).val == i
       <==> (EvalConds(p, sc, fuel, cs[..i], env, w).Ok? && EvalConds(p, sc, fuel, cs[..i], env, w).val == i)
    decreases |cs|
  {
    if i > 0 {
      assert cs[..i][0] == cs[0] && cs[..i][0] in cs[..i] && cs[..i][1..] == cs[1..][..i - 1];
      assert NeverTrue(cs[1..][..i - 1]) by { assert forall c | c in cs[..i][1..] :: c in cs[..i]; }
      var r := Eval(p, sc, fuel, cs[0], env, w);
      if r.val.i == 0 {
        TrueExitIsRightIff(p, sc, fuel, cs[1..], bs[1..], i - 1, r.env, r.world);
      } else {
        ExitsAnyway(cs[1..], bs[1..], i - 1);
      }
    }
  }

  lemma {:induction false} ExitsAnyway(cs: seq<Expr>, bs: seq<Expr>, i: nat)
    requires |bs| == |cs| + 1 && i < |cs| && cs[i] == LitBool(true) && NeverTrue(cs[..i])
    ensures Pruned(cs, bs) == Exit(bs[i])
    decreases |cs|
  {
    if i > 0 {
      assert cs[..i][0] == cs[0] && cs[..i][0] in cs[..i] && cs[..i][1..] == cs[1..][..i - 1];
      assert NeverTrue(cs[1..][..i - 1]) by { assert forall c | c in cs[..i][1..] :: c in cs[..i]; }
      ExitsAnyway(cs[1..], bs[1..], i - 1);
    }
  }

  /** `if c0 -> 1, if true -> 2, else 3` becomes 2, though it is 1 when c0 holds. */
  lemma TrueExitCanBeWrong(p: Program, k: Known, sc: Scope, w: World)
    ensures var e := Switch([ConstRef(0), LitBool(true)], [LitInt(1), LitInt(2), LitInt(3)]);
            var env := map[0 := VInt(1)];
            && Eval(p, sc, 0, e, env, w) == Ok(VInt(1), env, w)
            && Folded(p, k, e) == LitInt(2)
  {
    hide FoldedAll, Invoke, HasType;
    var cs, bs := [ConstRef(0), LitBool(true)], [LitInt(1), LitInt(2), LitInt(3)];
    var env := map[0 := VInt(1)];
    assert EvalConds(p, sc, 0, cs, env, w) == Ok(0, env, w);
    assert cs[1..] == [LitBool(true)] && bs[1..] == [LitInt(2), LitInt(3)];
    assert cs[1..][1..] == [] && bs[1..][1..] == [LitInt(3)];
    LeavesAlone(p, k, cs);
    LeavesAlone(p, k, bs);
    assert Pruned(cs[1..], bs[1..]) == Exit(LitInt(2));
    assert Pruned(cs, bs) == Exit(LitInt(2));
  }

  /** Conditions that read a constant or are literal. */
  predicate Simple(cs: seq<Expr>) {
    forall c | c in cs :: c.ConstRef? || c.LitBool?
  }

  /** Such a switch takes the branch of its literally true condition whatever the constants are exactly
      when the rewriter may exit there: when every condition before it is literally false. */
  lemma SimpleExitIsRightIff(p: Program, sc: Scope, fuel: nat, cs: seq<Expr>, bs: seq<Expr>, i: nat, w: World)
    requires |bs| == |cs| + 1 && i < |cs| && cs[i] == LitBool(true) && NeverTrue(cs[..i]) && Simple(cs)
    ensures Pruned(cs, bs) == Exit(bs[i])
    ensures (forall env | EvalConds(p, sc, fuel, cs, env, w).Ok? :: EvalConds(p, sc, fuel, cs, env, w).val == i)
       <==> ExitsFirst(cs)
  {
    ExitsAnyway(cs, bs, i);
    if ExitsFirst(cs) {
      forall env | EvalConds(p, sc, fuel, cs, env, w).Ok? ensures EvalConds(p, sc, fuel, cs, env, w).val == i {
        FirstTrue(p, sc, fuel, cs, i, env, w);
      }
    } else {
      var env, j := ReadsTrue(p, sc, fuel, cs, i, w);
      assert EvalConds(p, sc, fuel, cs, env, w).Ok? && EvalConds(p, sc, fuel, cs, env, w).val != i;
    }
  }

  lemma {:induction false} FirstTrue(p: Program, sc: Scope, fuel: nat, cs: seq<Expr>, i: nat, env: Env, w: World)
    requires i < |cs| && cs[i] == LitBool(true) && NeverTrue(cs[..i]) && ExitsFirst(cs)
    requires EvalConds(p, sc, fuel, cs, env, w).Ok?
    ensures EvalConds(p, sc, fuel, cs, env, w).val == i
    decreases |cs|
  {
    if i > 0 {
      assert cs[..i][0] == cs[0] && cs[..i][0] in cs[..i] && cs[..i][1..] == cs[1..][..i - 1];
      NeverTrueRest(cs[..i]);
      assert cs[i] in cs && !NeverTrue(cs);
      assert cs[0] == LitBool(false);
      FirstTrue(p, sc, fuel, cs[1..], i - 1, env, w);
    }
  }

  /** An environment in which a constant that is read before the literally true condition holds. */
  lemma {:induction false} ReadsTrue(p: Program, sc: Scope, fuel: nat, cs: seq<Expr>, i: nat, w: World)
    returns (env: Env, j: nat)
    requires i < |cs| && cs[i] == LitBool(true) && NeverTrue(cs[..i]) && Simple(cs) && !ExitsFirst(cs)
    ensures j < i && EvalConds(p, sc, fuel, cs, env, w) == Ok(j, env, w)
    decreases |cs|
  {
    assert cs[0] in cs;
    if i > 0 {
      assert cs[..i][0] == cs[0] && cs[..i][0] in cs[..i] && cs[..i][1..] == cs[1..][..i - 1];
      NeverTrueRest(cs[..i]);
    }
    if cs[0].ConstRef? {
      env, j := map[cs[0].id := VInt(1)], 0;
    } else {
      assert Simple(cs[1..]) by { assert forall c | c in cs[1..] :: c in cs; }
      env, j := ReadsTrue(p, sc, fuel, cs[1..], i - 1, w);
      j := j + 1;
    }
  }

  /** A struct with two fields and the function that makes it. */
  const PAIRS := Program([Struct([1, 1]), Basic], [FuncDecl(FuncKind.MakeStruct(0), false)], [])

  /** `Pair(c = 5, 7).second; c` becomes `7; c`, which reads a constant that is no longer assigned. */
  lemma DroppedOperandCanBeWrong(k: Known, sc: Scope, w: World)
    requires sc.consts.Has(0)
    ensures var e := Group([Field(0, Call(0, [Assign(0, LitInt(5)), LitInt(7)]), 1), ConstRef(0)]);
            && Eval(PAIRS, sc, 0, e, map[], w) == Ok(VInt(5), map[0 := VInt(5)], w)
            && Folded(PAIRS, k, e) == Group([LitInt(7), ConstRef(0)])
            && Eval(PAIRS, sc, 0, Folded(PAIRS, k, e), map[], w) == Err
  {
    var p, args := PAIRS, [Assign(0, LitInt(5)), LitInt(7)];
    var get, env: Env := Field(0, Call(0, args), 1), map[0 := VInt(5)];
    AllOfTwo(p, sc, 0, args[0], args[1], map[], w);
    assert args == [args[0], args[1]];
    assert Eval(p, sc, 0, Call(0, args), map[], w) == Ok(VStruct(0, [VInt(5), VInt(7)]), env, w);
    assert Eval(p, sc, 0, get, map[], w) == Ok(VInt(7), env, w);
    AllOfTwo(p, sc, 0, get, ConstRef(0), map[], w);
    var es, es2 := [get, ConstRef(0)], [LitInt(7), ConstRef(0)];
    assert Folded(p, k, get) == LitInt(7) by { assert Kids(LitInt(7)) == []; }
    assert Folded(p, k, ConstRef(0)) == ConstRef(0);
    assert es[1..] == [ConstRef(0)] && es[1..][1..] == [];
    assert FoldedAll(p, k, es) == es2;
    assert es2[1..] == [ConstRef(0)];
    assert Eval(p, sc, 0, LitInt(7), map[], w) == Ok(VInt(7), map[], w);
    assert Eval(p, sc, 0, ConstRef(0), map[], w) == Err;
    assert EvalAll(p, sc, 0, es2[1..], map[], w) == Err;
    assert EvalAll(p, sc, 0, es2, map[], w) == Err;
  }

  lemma {:induction false} LeavesAlone(p: Program, k: Known, es: seq<Expr>)
    requires forall e | e in es :: Kids(e) == [] && !e.Call? && !e.CallDyn? && !e.Switch? && !e.Field? && !e.Group?
                                   && !e.CallSelf? && !e.Closure?
    ensures FoldedAll(p, k, es) == es
    decreases |es|
  {
    if es != [] {
      assert es[0] in es;
      LeavesAlone(p, k, es[1..]);
    }
  }

  // ----- The theorem -----

  lemma {:induction false} FoldMeans(
    p: Program, k: Known, sc: Scope, fuel: nat, e: Expr, env: Env, w: World)
    requires Ready(p, k) && ScopeOk(p, sc) && Safe(p, k, sc, e) && Eval(p, sc, fuel, e, env, w).Ok?
    ensures Eval(FoldedProgram(p, k), sc, fuel, Folded(p, k, e), env, w) == Eval(p, sc, fuel, e, env, w)
    decreases fuel, 0, Size(e), 2
  {
    match e
    case Call(_, _) => FoldCallMeans(p, k, sc, fuel, e, env, w);
    case CallDyn(_, _, _) => FoldDynMeans(p, k, sc, fuel, e, env, w);
    case Switch(_, _) => FoldSwitchMeans(p, k, sc, fuel, e, env, w);
    case Field(_, _, _) => FoldFieldMeans(p, k, sc, fuel, e, env, w);
    case _ => FoldPlainMeans(p, k, sc, fuel, e, env, w);
  }

  lemma {:induction false} FoldAllMeans(
    p: Program, k: Known, sc: Scope, fuel: nat, es: seq<Expr>, env: Env, w: World)
    requires Ready(p, k) && ScopeOk(p, sc) && AllSafe(p, k, sc, es) && EvalAll(p, sc, fuel, es, env, w).Ok?
    ensures EvalAll(FoldedProgram(p, k), sc, fuel, FoldedAll(p, k, es), env, w) == EvalAll(p, sc, fuel, es, env, w)
    decreases fuel, 0, SizeAll(es), 3
  {
    hide Ready, Safe, FoldedProgram, Folded, Eval;
    if es != [] {
      FoldMeans(p, k, sc, fuel, es[0], env, w);
      var r := Eval(p, sc, fuel, es[0], env, w);
      FoldAllMeans(p, k, sc, fuel, es[1..], r.env, r.world);
      assert FoldedAll(p, k, es)[1..] == FoldedAll(p, k, es[1..]);
    }
  }

  lemma {:induction false} FoldCondsMeans(
    p: Program, k: Known, sc: Scope, fuel: nat, cs: seq<Expr>, env: Env, w: World)
    requires Ready(p, k) && ScopeOk(p, sc) && AllSafe(p, k, sc, cs) && EvalConds(p, sc, fuel, cs, env, w).Ok?
    ensures EvalConds(FoldedProgram(p, k), sc, fuel, FoldedAll(p, k, cs), env, w) == EvalConds(p, sc, fuel, cs, env, w)
    decreases fuel, 0, SizeAll(cs), 3
  {
    hide Ready, Safe, FoldedProgram, Folded, Eval;
    if cs != [] {
      FoldMeans(p, k, sc, fuel, cs[0], env, w);
      var r := Eval(p, sc, fuel, cs[0], env, w);
      assert FoldedAll(p, k, cs)[1..] == FoldedAll(p, k, cs[1..]);
      if r.val.i == 0 { FoldCondsMeans(p, k, sc, fuel, cs[1..], r.env, r.world); }
    }
  }

  lemma {:induction false} FoldInvokeMeans(p: Program, k: Known, fuel: nat, f: FuncId, vals: seq<Value>, w: World)
    requires Ready(p, k) && p.IsUser(f) && Invoke(p, fuel, f, vals, w).Ok?
    ensures CallAgrees(p, FoldedProgram(p, k), fuel, f, vals, w)
    decreases fuel, 1
  {
    var kind := p.funcs[f].kind;
    assert FoldedProgram(p, k).funcs[f] == FoldedFunc(p, k, f);
    FoldMeans(p, k, FuncScope(p, f), fuel, kind.body, BindInputs(kind.consts.Inputs(), vals), w);
  }

  lemma SameFuncsOf(p: Program, k: Known)
    ensures SameFuncs(p, FoldedProgram(p, k))
  {
    forall f | 0 <= f < |p.funcs| ensures SameFunc(p.funcs[f], FoldedProgram(p, k).funcs[f]) {
      assert FoldedProgram(p, k).funcs[f] == FoldedFunc(p, k, f);
    }
  }

  lemma {:induction false} FoldCallMeans(
    p: Program, k: Known, sc: Scope, fuel: nat, e: Expr, env: Env, w: World)
    requires Ready(p, k) && ScopeOk(p, sc) && Safe(p, k, sc, e) && e.Call? && Eval(p, sc, fuel, e, env, w).Ok?
    ensures Eval(FoldedProgram(p, k), sc, fuel, Folded(p, k, e), env, w) == Eval(p, sc, fuel, e, env, w)
    decreases fuel, 0, Size(e), 0
  {
    var p2, args := FoldedProgram(p, k), FoldedAll(p, k, e.args);
    var r := EvalAll(p, sc, fuel, e.args, env, w);
    assert AllSafe(p, k, sc, e.args) by { assert Kids(e) == e.args; }
    SameFuncsOf(p, k);
    assert SameFunc(p.funcs[e.func], p2.funcs[e.func]);
    hide Ready, Intrinsic, Invoke, FoldedProgram, AllSafe;
    FoldAllMeans(p, k, sc, fuel, e.args, env, w);
    if p.IsUser(e.func) {
      FoldInvokeMeans(p, k, fuel - 1, e.func, r.val, r.world);
    } else {
      SameIntrinsic(p, p2, p.funcs[e.func].kind, r.val, r.world);
      assert Eval(p2, sc, fuel, Call(e.func, args), env, w) == Eval(p, sc, fuel, e, env, w);
      KnowsIn(p, k);
      IntrinsicMeans(p, p2, k, sc, fuel, e.func, args, env, w);
    }
  }

  lemma KnowsIn(p: Program, k: Known)
    requires Ready(p, k)
    ensures KnowsRight(p, k) && KnowsRight(FoldedProgram(p, k), k)
  {}

  /** Calling a closure on the spot is calling its function with the bound arguments last. */
  lemma {:induction false} FoldDynMeans(
    p: Program, k: Known, sc: Scope, fuel: nat, e: Expr, env: Env, w: World)
    requires Ready(p, k) && ScopeOk(p, sc) && Safe(p, k, sc, e) && e.CallDyn? && Eval(p, sc, fuel, e, env, w).Ok?
    ensures Eval(FoldedProgram(p, k), sc, fuel, Folded(p, k, e), env, w) == Eval(p, sc, fuel, e, env, w)
    decreases fuel, 0, Size(e), 0
  {
    hide Ready, AllSafe, FoldedProgram, HasType, Intrinsic, FoldedIntrinsic, Invoke;
    var p2 := FoldedProgram(p, k);
    SizeAllCat([e.tgt], e.args);
    SafeCat(p, k, sc, [e.tgt], e.args);
    FoldedOne(p, k, sc, e.tgt);
    SameFuncsOf(p, k);
    var r := EvalAll(p, sc, fuel, e.args, env, w);
    FoldAllMeans(p, k, sc, fuel, e.args, env, w);
    var t := Eval(p, sc, fuel, e.tgt, r.env, r.world);
    FoldInvokeMeans(p, k, fuel - 1, t.val.func, r.val + t.val.bound, t.world);
    assert SameFunc(p.funcs[t.val.func], p2.funcs[t.val.func]);
    hide Safe;
    if e.tgt.LitFunc? {
      assert r.val + [] == r.val;
    } else if e.tgt.Closure? {
      var bs := e.tgt.boundArgs;
      assert AllSafe(p, k, sc, bs) by { ClosureSafe(p, k, sc, e.tgt); }
      FoldAllMeans(p, k, sc, fuel, bs, r.env, r.world);
      EvalAllCat(p2, sc, fuel, FoldedAll(p, k, e.args), FoldedAll(p, k, bs), env, w);
    } else {
      FoldMeans(p, k, sc, fuel, e.tgt, r.env, r.world);
    }
  }

  lemma ClosureSafe(p: Program, k: Known, sc: Scope, e: Expr)
    requires e.Closure? && Safe(p, k, sc, e)
    ensures AllSafe(p, k, sc, e.boundArgs)
  {}

  lemma {:induction false} EvalAllCat(
    p: Program, sc: Scope, fuel: nat, a: seq<Expr>, b: seq<Expr>, env: Env, w: World)
    requires EvalAll(p, sc, fuel, a, env, w).Ok?
    requires var r := EvalAll(p, sc, fuel, a, env, w); EvalAll(p, sc, fuel, b, r.env, r.world).Ok?
    ensures var r := EvalAll(p, sc, fuel, a, env, w);
            var r2 := EvalAll(p, sc, fuel, b, r.env, r.world);
            EvalAll(p, sc, fuel, a + b, env, w) == Ok(r.val + r2.val, r2.env, r2.world)
    decreases |a|
  {
    if a == [] {
      assert a + b == b;
      var vs := EvalAll(p, sc, fuel, b, env, w).val;
      assert [] + vs == vs;
    } else {
      assert (a + b)[1..] == a[1..] + b;
      var r := Eval(p, sc, fuel, a[0], env, w);
      EvalAllCat(p, sc, fuel, a[1..], b, r.env, r.world);
      var r1 := EvalAll(p, sc, fuel, a[1..], r.env, r.world);
      var r2 := EvalAll(p, sc, fuel, b, r1.env, r1.world);
      assert [r.val] + (r1.val + r2.val) == [r.val] + r1.val + r2.val;
    }
  }

  lemma {:induction false} FoldSwitchMeans(
    p: Program, k: Known, sc: Scope, fuel: nat, e: Expr, env: Env, w: World)
    requires Ready(p, k) && ScopeOk(p, sc) && Safe(p, k, sc, e) && e.Switch? && Eval(p, sc, fuel, e, env, w).Ok?
    ensures Eval(FoldedProgram(p, k), sc, fuel, Folded(p, k, e), env, w) == Eval(p, sc, fuel, e, env, w)
    decreases fuel, 0, Size(e), 0
  {
    var p2, cs, bs := FoldedProgram(p, k), e.conds, e.branches;
    SizeAllCat(cs, bs);
    SafeCat(p, k, sc, cs, bs);
    FoldCondsMeans(p, k, sc, fuel, cs, env, w);
    var r := EvalConds(p, sc, fuel, cs, env, w);
    SafeAt(p, k, sc, bs, r.val);
    SizeOfPart(bs, r.val);
    FoldMeans(p, k, sc, fuel, bs[r.val], r.env, r.world);
    hide Ready, Safe, AllSafe, FoldedProgram;
    SwitchMeans(p2, sc, fuel, FoldedAll(p, k, cs), FoldedAll(p, k, bs), env, w);
  }

  /** A field of a structure made on the spot is the operand for that field, when nothing is lost with
      the other operands. */
  lemma {:induction false} FoldFieldMeans(
    p: Program, k: Known, sc: Scope, fuel: nat, e: Expr, env: Env, w: World)
    requires Ready(p, k) && ScopeOk(p, sc) && Safe(p, k, sc, e) && e.Field? && Eval(p, sc, fuel, e, env, w).Ok?
    ensures Eval(FoldedProgram(p, k), sc, fuel, Folded(p, k, e), env, w) == Eval(p, sc, fuel, e, env, w)
    decreases fuel, 0, Size(e), 1
  {
    if MakesStruct(p, e.lhs) && e.index < |e.lhs.args| {
      FoldMadeField(p, k, sc, fuel, e, env, w);
    } else {
      FoldedOne(p, k, sc, e.lhs);
      hide Ready, Safe, AllSafe, FoldedProgram;
      FoldMeans(p, k, sc, fuel, e.lhs, env, w);
      TypesDecide(p, FoldedProgram(p, k), Eval(p, sc, fuel, e.lhs, env, w).val, e.stype);
      SameTypes(p, k);
    }
  }

  lemma SameTypes(p: Program, k: Known)
    ensures FoldedProgram(p, k).types == p.types
  {}

  lemma {:induction false} FoldMadeField(
    p: Program, k: Known, sc: Scope, fuel: nat, e: Expr, env: Env, w: World)
    requires Ready(p, k) && ScopeOk(p, sc) && Safe(p, k, sc, e) && e.Field? && Eval(p, sc, fuel, e, env, w).Ok?
    requires MakesStruct(p, e.lhs) && e.index < |e.lhs.args|
    ensures Eval(FoldedProgram(p, k), sc, fuel, Folded(p, k, e), env, w) == Eval(p, sc, fuel, e, env, w)
    decreases fuel, 0, Size(e), 0
  {
    var args := e.lhs.args;
    FoldedOne(p, k, sc, e.lhs);
    assert AllSafe(p, k, sc, Kids(e.lhs)) && Kids(e.lhs) == args && OthersMovable(p, sc, args, e.index);
    hide Ready, Safe, AllSafe, FoldedProgram, OthersMovable;
    ArgSize(e.lhs, e.index);
    SafeAt(p, k, sc, args, e.index);
    OneMatters(p, sc, fuel, args, e.index, env, w);
    FoldMeans(p, k, sc, fuel, args[e.index], env, w);
  }

  /** Of a list whose other elements are movable, one element can be evaluated alone. */
  lemma {:induction false} OneMatters(
    p: Program, sc: Scope, fuel: nat, es: seq<Expr>, i: nat, env: Env, w: World)
    requires ScopeOk(p, sc) && i < |es| && OthersMovable(p, sc, es, i) && EvalAll(p, sc, fuel, es, env, w).Ok?
    ensures var r := EvalAll(p, sc, fuel, es, env, w);
            Eval(p, sc, fuel, es[i], env, w) == Ok(r.val[i], r.env, r.world)
    decreases |es|
  {
    var r := Eval(p, sc, fuel, es[0], env, w);
    if i == 0 {
      NothingMatters(p, sc, fuel, es[1..], r.env, r.world);
    } else {
      Anywhere(p, sc, fuel, es[0], env, w, env, w);
      forall j | 0 <= j < |es[1..]| && j != i - 1 ensures Movable(p, sc, es[1..][j]) {
        assert es[1..][j] == es[j + 1];
      }
      OneMatters(p, sc, fuel, es[1..], i - 1, env, w);
    }
  }

  lemma {:induction false} NothingMatters(p: Program, sc: Scope, fuel: nat, es: seq<Expr>, env: Env, w: World)
    requires ScopeOk(p, sc) && EvalAll(p, sc, fuel, es, env, w).Ok?
    requires forall j | 0 <= j < |es| :: Movable(p, sc, es[j])
    ensures EvalAll(p, sc, fuel, es, env, w).env == env && EvalAll(p, sc, fuel, es, env, w).world == w
    decreases |es|
  {
    if es != [] {
      Anywhere(p, sc, fuel, es[0], env, w, env, w);
      NothingMatters(p, sc, fuel, es[1..], env, w);
    }
  }

  /** Operands that do not act and declare nothing but, at most, the constant they themselves assign. */
  predicate PlainOperands(p: Program, sc: Scope, es: seq<Expr>) {
    forall e | e in es :: Movable(p, sc, if e.Assign? then e.init else e)
  }

  /** They declare constants that are new and different. */
  predicate NewConstants(es: seq<Expr>, env: Env) {
    && (forall e | e in es && e.Assign? :: e.id !in env)
    && (forall j, k | 0 <= j < k < |es| && es[j].Assign? && es[k].Assign? :: es[j].id != es[k].id)
  }

  /** With such operands, a field of a struct made on the spot is the operand alone exactly when the other
      operands declare nothing. */
  lemma FieldIsRightIff(p: Program, sc: Scope, fuel: nat, e: Expr, env: Env, w: World)
    requires ScopeOk(p, sc) && e.Field? && MakesStruct(p, e.lhs) && e.index < |e.lhs.args|
    requires Eval(p, sc, fuel, e, env, w).Ok? && PlainOperands(p, sc, e.lhs.args) && NewConstants(e.lhs.args, env)
    ensures Eval(p, sc, fuel, e.lhs.args[e.index], env, w) == Eval(p, sc, fuel, e, env, w)
       <==> OthersMovable(p, sc, e.lhs.args, e.index)
  {
    var es, i := e.lhs.args, e.index;
    var r := EvalAll(p, sc, fuel, es, env, w);
    FieldOfMade(p, sc, fuel, e, env, w);
    if OthersMovable(p, sc, es, i) {
      OneMatters(p, sc, fuel, es, i, env, w);
    } else {
      var j :| 0 <= j < |es| && j != i && !Movable(p, sc, es[j]);
      assert es[j] in es && es[i] in es && es[j].Assign?;
      Declared(p, sc, fuel, es, j, env, w);
      if Eval(p, sc, fuel, es[i], env, w).Ok? { DeclaresOne(p, sc, fuel, es[i], es[j].id, env, w); }
    }
  }

  lemma FieldOfMade(p: Program, sc: Scope, fuel: nat, e: Expr, env: Env, w: World)
    requires e.Field? && MakesStruct(p, e.lhs) && e.index < |e.lhs.args| && Eval(p, sc, fuel, e, env, w).Ok?
    ensures var r := EvalAll(p, sc, fuel, e.lhs.args, env, w);
            r.Ok? && |r.val| == |e.lhs.args| && Eval(p, sc, fuel, e, env, w) == Ok(r.val[e.index], r.env, r.world)
  {}

  /** An operand assigns no constant but its own. */
  lemma DeclaresOne(p: Program, sc: Scope, fuel: nat, e: Expr, id: ConstId, env: Env, w: World)
    requires ScopeOk(p, sc) && Movable(p, sc, if e.Assign? then e.init else e) && id !in env
    requires Eval(p, sc, fuel, e, env, w).Ok?
    ensures id in Eval(p, sc, fuel, e, env, w).env <==> e.Assign? && e.id == id
  {
    Anywhere(p, sc, fuel, if e.Assign? then e.init else e, env, w, env, w);
  }

  lemma {:induction false} Declared(p: Program, sc: Scope, fuel: nat, es: seq<Expr>, j: nat, env: Env, w: World)
    requires ScopeOk(p, sc) && PlainOperands(p, sc, es) && j < |es| && es[j].Assign?
    requires EvalAll(p, sc, fuel, es, env, w).Ok?
    ensures es[j].id in EvalAll(p, sc, fuel, es, env, w).env
    decreases |es|
  {
    var r := Eval(p, sc, fuel, es[0], env, w);
    assert forall e | e in es[1..] :: e in es;
    if j > 0 { Declared(p, sc, fuel, es[1..], j - 1, r.env, r.world); }
    else { StayDeclared(p, sc, fuel, es[1..], es[0].id, r.env, r.world); }
  }

  lemma {:induction false} StayDeclared(
    p: Program, sc: Scope, fuel: nat, es: seq<Expr>, id: ConstId, env: Env, w: World)
    requires ScopeOk(p, sc) && PlainOperands(p, sc, es) && id in env && EvalAll(p, sc, fuel, es, env, w).Ok?
    ensures id in EvalAll(p, sc, fuel, es, env, w).env
    decreases |es|
  {
    if es != [] {
      var r := Eval(p, sc, fuel, es[0], env, w);
      assert forall e | e in es[1..] :: e in es;
      Anywhere(p, sc, fuel, if es[0].Assign? then es[0].init else es[0], env, w, env, w);
      StayDeclared(p, sc, fuel, es[1..], id, r.env, r.world);
    }
  }

  lemma {:induction false} FoldPlainMeans(
    p: Program, k: Known, sc: Scope, fuel: nat, e: Expr, env: Env, w: World)
    requires Ready(p, k) && ScopeOk(p, sc) && Safe(p, k, sc, e) && Eval(p, sc, fuel, e, env, w).Ok?
    requires !e.Call? && !e.CallDyn? && !e.Switch? && !e.Field?
    ensures Eval(FoldedProgram(p, k), sc, fuel, Folded(p, k, e), env, w) == Eval(p, sc, fuel, e, env, w)
    decreases fuel, 0, Size(e), 1
  {
    match e
    case Assign(_, _) => FoldAssignMeans(p, k, sc, fuel, e, env, w);
    case Group(es) => FoldAllMeans(p, k, sc, fuel, es, env, w);
    case CallSelf(_) => FoldSelfMeans(p, k, sc, fuel, e, env, w);
    case Closure(_, _) => FoldClosureMeans(p, k, sc, fuel, e, env, w);
    case UnionCheck(_, _, _) => FoldUnionMeans(p, k, sc, fuel, e, env, w);
    case UnionGet(_, _, _, _) => FoldUnionMeans(p, k, sc, fuel, e, env, w);
    case _ => FoldLeafMeans(p, k, sc, fuel, e, env, w);
  }

  lemma {:induction false} FoldLeafMeans(
    p: Program, k: Known, sc: Scope, fuel: nat, e: Expr, env: Env, w: World)
    requires Ready(p, k) && ScopeOk(p, sc) && Safe(p, k, sc, e) && Kids(e) == [] && !e.Group? && !e.Call? && !e.CallDyn? && !e.Switch? && !e.CallSelf? && !e.Closure? && Eval(p, sc, fuel, e, env, w).Ok?
    ensures Eval(FoldedProgram(p, k), sc, fuel, Folded(p, k, e), env, w) == Eval(p, sc, fuel, e, env, w)
    decreases fuel, 0, Size(e), 0
  {
    hide Ready, Safe, FoldedProgram;
    SameFuncsOf(p, k);
    if e.LitFunc? { assert SameFunc(p.funcs[e.func], FoldedProgram(p, k).funcs[e.func]); }
  }

  lemma {:induction false} FoldAssignMeans(
    p: Program, k: Known, sc: Scope, fuel: nat, e: Expr, env: Env, w: World)
    requires Ready(p, k) && ScopeOk(p, sc) && Safe(p, k, sc, e) && e.Assign? && Eval(p, sc, fuel, e, env, w).Ok?
    ensures Eval(FoldedProgram(p, k), sc, fuel, Folded(p, k, e), env, w) == Eval(p, sc, fuel, e, env, w)
    decreases fuel, 0, Size(e), 0
  {
    hide Ready, Safe, FoldedProgram;
    FoldOneMeans(p, k, sc, fuel, e, e.init, 0, env, w);
  }

  lemma {:induction false} FoldUnionMeans(
    p: Program, k: Known, sc: Scope, fuel: nat, e: Expr, env: Env, w: World)
    requires Ready(p, k) && ScopeOk(p, sc) && Safe(p, k, sc, e) && (e.UnionCheck? || e.UnionGet?) && Eval(p, sc, fuel, e, env, w).Ok?
    ensures Eval(FoldedProgram(p, k), sc, fuel, Folded(p, k, e), env, w) == Eval(p, sc, fuel, e, env, w)
    decreases fuel, 0, Size(e), 0
  {
    hide Ready, Safe, HasType;
    FoldOneMeans(p, k, sc, fuel, e, e.lhs, e.utype, env, w);
  }

  lemma {:induction false} FoldSelfMeans(
    p: Program, k: Known, sc: Scope, fuel: nat, e: Expr, env: Env, w: World)
    requires Ready(p, k) && ScopeOk(p, sc) && Safe(p, k, sc, e) && e.CallSelf? && Eval(p, sc, fuel, e, env, w).Ok?
    ensures Eval(FoldedProgram(p, k), sc, fuel, Folded(p, k, e), env, w) == Eval(p, sc, fuel, e, env, w)
    decreases fuel, 0, Size(e), 0
  {
    hide Ready;
    var p2 := FoldedProgram(p, k);
    SameFuncsOf(p, k);
    assert AllSafe(p, k, sc, e.args) by { assert Kids(e) == e.args; }
    FoldAllMeans(p, k, sc, fuel, e.args, env, w);
    var r := EvalAll(p, sc, fuel, e.args, env, w);
    FoldInvokeMeans(p, k, fuel - 1, sc.func.value, r.val + Lookups(r.env, sc.consts.bound).value, r.world);
  }

  lemma {:induction false} FoldClosureMeans(
    p: Program, k: Known, sc: Scope, fuel: nat, e: Expr, env: Env, w: World)
    requires Ready(p, k) && ScopeOk(p, sc) && Safe(p, k, sc, e) && e.Closure? && Eval(p, sc, fuel, e, env, w).Ok?
    ensures Eval(FoldedProgram(p, k), sc, fuel, Folded(p, k, e), env, w) == Eval(p, sc, fuel, e, env, w)
    decreases fuel, 0, Size(e), 0
  {
    hide Ready;
    SameFuncsOf(p, k);
    ClosureSafe(p, k, sc, e);
    FoldAllMeans(p, k, sc, fuel, e.boundArgs, env, w);
    assert SameFunc(p.funcs[e.func], FoldedProgram(p, k).funcs[e.func]);
  }

  lemma {:induction false} FoldOneMeans(
    p: Program, k: Known, sc: Scope, fuel: nat, e: Expr, x: Expr, t: TypeId, env: Env, w: World)
    requires Ready(p, k) && ScopeOk(p, sc) && Safe(p, k, sc, e) && Kids(e) == [x] && Eval(p, sc, fuel, x, env, w).Ok?
    ensures Eval(FoldedProgram(p, k), sc, fuel, Folded(p, k, x), env, w) == Eval(p, sc, fuel, x, env, w)
    ensures FoldedAll(p, k, [x]) == [Folded(p, k, x)]
    ensures var v := Eval(p, sc, fuel, x, env, w).val; HasType(FoldedProgram(p, k), v, t) == HasType(p, v, t)
    decreases fuel, 0, Size(x), 3
  {
    FoldedOne(p, k, sc, x);
    TypesDecide(p, FoldedProgram(p, k), Eval(p, sc, fuel, x, env, w).val, t);
    FoldMeans(p, k, sc, fuel, x, env, w);
  }

  /** The main theorem: a program whose execute statements run to their end does so with the same
      actions in the same order, and using the same replies, once its literals are precomputed. */
  lemma ProgramMeans(p: Program, k: Known, fuel: nat, w: World)
    requires Ready(p, k) && RunExecs(p, fuel, p.execs, w).Some?
    ensures RunExecs(FoldedProgram(p, k), fuel, p.execs, w) == RunExecs(p, fuel, p.execs, w)
  {
    var p2 := FoldedProgram(p, k);
    SameFuncsOf(p, k);
    forall n: nat, f: FuncId, vals: seq<Value>, w1: World
      | n < fuel && p.IsUser(f) && Invoke(p, n, f, vals, w1).Ok?
      ensures CallAgrees(p, p2, n, f, vals, w1)
    {
      FoldInvokeMeans(p, k, n, f, vals, w1);
    }
    ExecsUnchanged(p, p2, fuel, p.execs, w);
  }
}
