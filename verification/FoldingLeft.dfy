/** What precomputing leaves: nothing that it could have computed. */
module FoldingLeft {
  import opened Lang
  import opened Trees
  import opened Folding
  import opened Arithmetic

  // ----- Nodes that could be computed -----

  /** A call of a built-in function, or a switch, that literals decide. */
  predicate CanCompute(p: Program, k: Known, e: Expr) {
    match e
    case Call(f, args) =>
      f < |p.funcs| &&
      (match p.funcs[f].kind
       case Binary(op) =>
         |args| == 2 &&
         ((args[0].LitInt? && args[1].LitInt? && Defined(op, args[0].i, args[1].i))
          || (op == CheckEqInt && (args[0] == LitInt(0) || args[1] == LitInt(0))))
       case Unary(_) => |args| == 1 && args[0].LitInt?
       case NoOp => |args| == 1 && (f in k.identity || (f in k.boolToInt && args[0].LitBool?))
       case _ => false)
    case Switch(cs, bs) => |bs| == |cs| + 1 && exists c :: c in cs && c.LitBool?
    case _ => false
  }

  ghost predicate NothingLeft(p: Program, k: Known, e: Expr)
    decreases Size(e), 0
  {
    !CanCompute(p, k, e) && NothingLeftIn(p, k, Kids(e))
  }

  ghost predicate NothingLeftIn(p: Program, k: Known, es: seq<Expr>)
    decreases SizeAll(es), 1
  {
    es == [] || (NothingLeft(p, k, es[0]) && NothingLeftIn(p, k, es[1..]))
  }

  /** Functions that are called through literals and closures have a body. */
  predicate UserTargets(p: Program, e: Expr)
    decreases Size(e), 0
  {
    (e.LitFunc? || e.Closure? ==> p.IsUser(e.func)) && AllUserTargets(p, Kids(e))
  }

  predicate AllUserTargets(p: Program, es: seq<Expr>)
    decreases SizeAll(es), 1
  {
    es == [] || (UserTargets(p, es[0]) && AllUserTargets(p, es[1..]))
  }

  predicate KnowsZeroTest(p: Program, k: Known) {
    k.eqZero < |p.funcs| && p.funcs[k.eqZero].kind.Unary?
  }

  lemma NothingLeftAt(p: Program, k: Known, es: seq<Expr>, i: nat)
    requires NothingLeftIn(p, k, es) && i < |es|
    ensures NothingLeft(p, k, es[i])
  {
    if i > 0 { NothingLeftAt(p, k, es[1..], i - 1); }
  }

  lemma NothingLeftCat(p: Program, k: Known, a: seq<Expr>, b: seq<Expr>)
    ensures NothingLeftIn(p, k, a + b) <==> NothingLeftIn(p, k, a) && NothingLeftIn(p, k, b)
    decreases |a|
  {
    if a == [] {
      assert a + b == b;
    } else {
      assert (a + b)[1..] == a[1..] + b;
      NothingLeftCat(p, k, a[1..], b);
    }
  }

  lemma UserTargetsAt(p: Program, es: seq<Expr>, i: nat)
    requires AllUserTargets(p, es) && i < |es|
    ensures UserTargets(p, es[i])
  {
    if i > 0 { UserTargetsAt(p, es[1..], i - 1); }
  }

  lemma UserTargetsCat(p: Program, a: seq<Expr>, b: seq<Expr>)
    ensures AllUserTargets(p, a + b) <==> AllUserTargets(p, a) && AllUserTargets(p, b)
    decreases |a|
  {
    if a == [] {
      assert a + b == b;
    } else {
      assert (a + b)[1..] == a[1..] + b;
      UserTargetsCat(p, a[1..], b);
    }
  }

  /** After the pass no call of a built-in function and no switch is left that literals decide. */
  lemma {:induction false} FoldsAll(p: Program, k: Known, e: Expr)
    requires UserTargets(p, e) && KnowsZeroTest(p, k)
    ensures NothingLeft(p, k, Folded(p, k, e))
    decreases Size(e), 0
  {
    match e
    case Call(f, args) => CallFolds(p, k, e);
    case CallDyn(_, _, _) => DynFolds(p, k, e);
    case Switch(_, _) => SwitchFolds(p, k, e);
    case Field(_, _, _) => FieldFolds(p, k, e);
    case _ =>
      FoldsAllIn(p, k, Kids(e));
      KidsOfWithKids(e, FoldedAll(p, k, Kids(e)));
  }

  lemma {:induction false} FoldsAllIn(p: Program, k: Known, es: seq<Expr>)
    requires AllUserTargets(p, es) && KnowsZeroTest(p, k)
    ensures NothingLeftIn(p, k, FoldedAll(p, k, es))
    decreases SizeAll(es), 1
  {
    if es != [] {
      FoldsAll(p, k, es[0]);
      FoldsAllIn(p, k, es[1..]);
      assert ([Folded(p, k, es[0])] + FoldedAll(p, k, es[1..]))[1..] == FoldedAll(p, k, es[1..]);
    }
  }

  lemma {:induction false} CallFolds(p: Program, k: Known, e: Expr)
    requires e.Call? && UserTargets(p, e) && KnowsZeroTest(p, k)
    ensures NothingLeft(p, k, Folded(p, k, e))
    decreases Size(e), 0, 0
  {
    var args := FoldedAll(p, k, e.args);
    FoldsAllIn(p, k, e.args);
    if e.func < |p.funcs| {
      hide Folded, FoldedAll;
      IntrinsicFolds(p, k, e.func, args);
    }
  }

  lemma IntrinsicFolds(p: Program, k: Known, f: FuncId, args: seq<Expr>)
    requires f < |p.funcs| && KnowsZeroTest(p, k) && NothingLeftIn(p, k, args)
    ensures NothingLeft(p, k, FoldedIntrinsic(p, k, f, args))
  {
    match p.funcs[f].kind
    case Binary(op) =>
      if |args| == 2 { BinaryFolds(p, k, f, args); }
    case Unary(op) =>
      if |args| == 1 { assert AllInts(args) <==> args[0].LitInt?; }
    case NoOp =>
      if |args| == 1 { NothingLeftAt(p, k, args, 0); }
    case _ =>
  }

  lemma BinaryFolds(p: Program, k: Known, f: FuncId, args: seq<Expr>)
    requires f < |p.funcs| && KnowsZeroTest(p, k) && NothingLeftIn(p, k, args) && |args| == 2 && p.funcs[f].kind.Binary?
    ensures NothingLeft(p, k, FoldedIntrinsic(p, k, f, args))
  {
    var op := p.funcs[f].kind.bop;
    NothingLeftAt(p, k, args, 0);
    NothingLeftAt(p, k, args, 1);
    assert AllInts(args) <==> args[0].LitInt? && args[1].LitInt?;
    if AllInts(args) { DefinedIsPrecomputed(op, args[0].i, args[1].i); }
    hide ApplyBin, PrecomputedBin, Defined;
    forall i | 0 <= i < 2 ensures NothingLeftIn(p, k, [args[i]]) { assert [args[i]][1..] == []; }
  }

  lemma DefinedIsPrecomputed(op: BinOp, a: int, b: int)
    ensures Defined(op, a, b) ==> PrecomputedBin(op, a, b).Some?
    ensures op == CheckEqInt ==> Defined(op, a, b)
  {}

  lemma {:induction false} DynFolds(p: Program, k: Known, e: Expr)
    requires e.CallDyn? && UserTargets(p, e) && KnowsZeroTest(p, k)
    ensures NothingLeft(p, k, Folded(p, k, e))
    decreases Size(e), 0, 0
  {
    SizeAllCat([e.tgt], e.args);
    assert Kids(e)[0] == e.tgt && Kids(e)[1..] == e.args && UserTargets(p, e.tgt);
    FoldsAllIn(p, k, e.args);
    if e.tgt.Closure? {
      FoldsAllIn(p, k, e.tgt.boundArgs);
      NothingLeftCat(p, k, FoldedAll(p, k, e.args), FoldedAll(p, k, e.tgt.boundArgs));
    } else if !e.tgt.LitFunc? {
      FoldsAll(p, k, e.tgt);
      var t, args := Folded(p, k, e.tgt), FoldedAll(p, k, e.args);
      assert ([t] + args)[1..] == args;
    }
  }

  lemma {:induction false} FieldFolds(p: Program, k: Known, e: Expr)
    requires e.Field? && UserTargets(p, e) && KnowsZeroTest(p, k)
    ensures NothingLeft(p, k, Folded(p, k, e))
    decreases Size(e), 0, 0
  {
    assert Kids(e)[0] == e.lhs && UserTargets(p, e.lhs);
    if MakesStruct(p, e.lhs) && e.index < |e.lhs.args| {
      ArgSize(e.lhs, e.index);
      UserTargetsAt(p, e.lhs.args, e.index);
      FoldsAll(p, k, e.lhs.args[e.index]);
    } else {
      FoldsAll(p, k, e.lhs);
      assert [Folded(p, k, e.lhs)][1..] == [];
    }
  }

  lemma {:induction false} SwitchFolds(p: Program, k: Known, e: Expr)
    requires e.Switch? && UserTargets(p, e) && KnowsZeroTest(p, k)
    ensures NothingLeft(p, k, Folded(p, k, e))
    decreases Size(e), 0, 0
  {
    SizeAllCat(e.conds, e.branches);
    UserTargetsCat(p, e.conds, e.branches);
    FoldsAllIn(p, k, e.conds);
    FoldsAllIn(p, k, e.branches);
    var cs, bs := FoldedAll(p, k, e.conds), FoldedAll(p, k, e.branches);
    if |e.branches| == |e.conds| + 1 {
      assert Folded(p, k, e) == SwitchOf(Pruned(cs, bs));
      hide Folded, FoldedAll, Pruned;
      PrunedLeaves(p, k, cs, bs);
      var r := Pruned(cs, bs);
      if r.Left? {
        NothingLeftCat(p, k, r.conds, r.branches);
        if r.conds == [] { NothingLeftAt(p, k, r.branches, 0); }
      }
    } else {
      NothingLeftCat(p, k, cs, bs);
    }
  }

  /** No literal condition is left. */
  lemma {:induction false} PrunedLeaves(p: Program, k: Known, cs: seq<Expr>, bs: seq<Expr>)
    requires |bs| == |cs| + 1 && NothingLeftIn(p, k, cs) && NothingLeftIn(p, k, bs)
    ensures match Pruned(cs, bs)
            case Exit(b) => NothingLeft(p, k, b)
            case Left(cs1, bs1) =>
              NothingLeftIn(p, k, cs1) && NothingLeftIn(p, k, bs1) && forall c | c in cs1 :: !c.LitBool?
    decreases |cs|
  {
    hide NothingLeft;
    if cs != [] && cs[0] != LitBool(true) {
      PrunedLeaves(p, k, cs[1..], bs[1..]);
      var r := Pruned(cs[1..], bs[1..]);
      if r.Left? && cs[0] != LitBool(false) {
        assert ([cs[0]] + r.conds)[1..] == r.conds && ([bs[0]] + r.branches)[1..] == r.branches;
      }
    }
  }

  // ----- Dynamic calls and fields -----

  /** How many dynamic calls and fields stand in e. */
  function Spots(e: Expr): nat
    decreases Size(e), 0
  {
    (if e.CallDyn? || e.Field? then 1 else 0) + SpotsIn(Kids(e))
  }

  function SpotsIn(es: seq<Expr>): nat
    decreases SizeAll(es), 1
  {
    if es == [] then 0 else Spots(es[0]) + SpotsIn(es[1..])
  }

  /** The function of the call, or the struct of the field, is not known at this place. */
  predicate IsOpen(p: Program, e: Expr) {
    match e
    case CallDyn(tgt, _, _) => !tgt.LitFunc? && !tgt.Closure?
    case Field(_, lhs, index) =>
      !(lhs.Call? && lhs.func < |p.funcs| && p.funcs[lhs.func].kind.MakeStruct? && index < |lhs.args|)
    case _ => false
  }

  function OpenSpots(p: Program, e: Expr): nat
    decreases Size(e), 0
  {
    (if IsOpen(p, e) then 1 else 0) + OpenSpotsIn(p, Kids(e))
  }

  function OpenSpotsIn(p: Program, es: seq<Expr>): nat
    decreases SizeAll(es), 1
  {
    if es == [] then 0 else OpenSpots(p, es[0]) + OpenSpotsIn(p, es[1..])
  }

  lemma SpotsCat(a: seq<Expr>, b: seq<Expr>)
    ensures SpotsIn(a + b) == SpotsIn(a) + SpotsIn(b)
    decreases |a|
  {
    if a == [] {
      assert a + b == b;
    } else {
      assert (a + b)[1..] == a[1..] + b;
      SpotsCat(a[1..], b);
    }
  }

  lemma OpenSpotsCat(p: Program, a: seq<Expr>, b: seq<Expr>)
    ensures OpenSpotsIn(p, a + b) == OpenSpotsIn(p, a) + OpenSpotsIn(p, b)
    decreases |a|
  {
    if a == [] {
      assert a + b == b;
    } else {
      assert (a + b)[1..] == a[1..] + b;
      OpenSpotsCat(p, a[1..], b);
    }
  }

  lemma SpotsAt(es: seq<Expr>, i: nat)
    requires i < |es|
    ensures Spots(es[i]) <= SpotsIn(es)
  {
    if i > 0 { SpotsAt(es[1..], i - 1); }
  }

  lemma OpenSpotsAt(p: Program, es: seq<Expr>, i: nat)
    requires i < |es|
    ensures OpenSpots(p, es[i]) <= OpenSpotsIn(p, es)
  {
    if i > 0 { OpenSpotsAt(p, es[1..], i - 1); }
  }

  /** After the pass at most the dynamic calls and fields are left that were open before. */
  lemma {:induction false} OnlyOpenLeft(p: Program, k: Known, e: Expr)
    ensures Spots(Folded(p, k, e)) <= OpenSpots(p, e)
    decreases Size(e), 0
  {
    match e
    case Call(f, args) =>
      OnlyOpenLeftIn(p, k, args);
      if f < |p.funcs| {
        hide Folded, FoldedAll;
        IntrinsicSpots(p, k, f, FoldedAll(p, k, args));
      }
    case CallDyn(_, _, _) => DynSpots(p, k, e);
    case Switch(_, _) => SwitchSpots(p, k, e);
    case Field(_, _, _) => FieldSpots(p, k, e);
    case _ =>
      OnlyOpenLeftIn(p, k, Kids(e));
      KidsOfWithKids(e, FoldedAll(p, k, Kids(e)));
  }

  lemma {:induction false} OnlyOpenLeftIn(p: Program, k: Known, es: seq<Expr>)
    ensures SpotsIn(FoldedAll(p, k, es)) <= OpenSpotsIn(p, es)
    decreases SizeAll(es), 1
  {
    if es != [] {
      OnlyOpenLeft(p, k, es[0]);
      OnlyOpenLeftIn(p, k, es[1..]);
      assert ([Folded(p, k, es[0])] + FoldedAll(p, k, es[1..]))[1..] == FoldedAll(p, k, es[1..]);
    }
  }

  lemma IntrinsicSpots(p: Program, k: Known, f: FuncId, args: seq<Expr>)
    requires f < |p.funcs|
    ensures Spots(FoldedIntrinsic(p, k, f, args)) <= SpotsIn(args)
  {
    hide ApplyBin, PrecomputedBin, Spots;
    forall i | 0 <= i < |args| ensures Spots(args[i]) <= SpotsIn(args) && SpotsIn([args[i]]) == Spots(args[i]) {
      SpotsAt(args, i);
      assert [args[i]][1..] == [];
    }
    NodeSpots();
  }

  lemma NodeSpots()
    ensures forall f, args :: Spots(Call(f, args)) == SpotsIn(args)
    ensures forall b :: Spots(LitBool(b)) == 0
    ensures forall i :: Spots(LitInt(i)) == 0
  {}

  lemma {:induction false} DynSpots(p: Program, k: Known, e: Expr)
    requires e.CallDyn?
    ensures Spots(Folded(p, k, e)) <= OpenSpots(p, e)
    decreases Size(e), 0, 0
  {
    SizeAllCat([e.tgt], e.args);
    assert Kids(e)[0] == e.tgt && Kids(e)[1..] == e.args;
    OnlyOpenLeftIn(p, k, e.args);
    if e.tgt.Closure? {
      OnlyOpenLeftIn(p, k, e.tgt.boundArgs);
      assert OpenSpots(p, e.tgt) == OpenSpotsIn(p, e.tgt.boundArgs);
      SpotsCat(FoldedAll(p, k, e.args), FoldedAll(p, k, e.tgt.boundArgs));
    } else if !e.tgt.LitFunc? {
      OnlyOpenLeft(p, k, e.tgt);
      var t, args := Folded(p, k, e.tgt), FoldedAll(p, k, e.args);
      assert ([t] + args)[1..] == args;
    }
  }

  lemma {:induction false} FieldSpots(p: Program, k: Known, e: Expr)
    requires e.Field?
    ensures Spots(Folded(p, k, e)) <= OpenSpots(p, e)
    decreases Size(e), 0, 0
  {
    assert Kids(e) == [e.lhs] && [e.lhs][1..] == [];
    assert OpenSpotsIn(p, [e.lhs]) == OpenSpots(p, e.lhs);
    if MakesStruct(p, e.lhs) && e.index < |e.lhs.args| {
      ArgSize(e.lhs, e.index);
      OpenSpotsAt(p, e.lhs.args, e.index);
      OnlyOpenLeft(p, k, e.lhs.args[e.index]);
    } else {
      OnlyOpenLeft(p, k, e.lhs);
      var lhs := Folded(p, k, e.lhs);
      assert [lhs][1..] == [] && SpotsIn([lhs]) == Spots(lhs);
      assert IsOpen(p, e) && Kids(Field(e.stype, lhs, e.index)) == [lhs];
    }
  }

  lemma {:induction false} SwitchSpots(p: Program, k: Known, e: Expr)
    requires e.Switch?
    ensures Spots(Folded(p, k, e)) <= OpenSpots(p, e)
    decreases Size(e), 0, 0
  {
    SizeAllCat(e.conds, e.branches);
    OpenSpotsCat(p, e.conds, e.branches);
    OnlyOpenLeftIn(p, k, e.conds);
    OnlyOpenLeftIn(p, k, e.branches);
    var cs, bs := FoldedAll(p, k, e.conds), FoldedAll(p, k, e.branches);
    if |e.branches| == |e.conds| + 1 {
      assert Folded(p, k, e) == SwitchOf(Pruned(cs, bs));
      hide Folded, FoldedAll, Pruned;
      PrunedSpots(cs, bs);
      var r := Pruned(cs, bs);
      if r.Left? {
        SpotsCat(r.conds, r.branches);
        if r.conds == [] { SpotsAt(r.branches, 0); }
      }
    } else {
      SpotsCat(cs, bs);
    }
  }

  lemma {:induction false} PrunedSpots(cs: seq<Expr>, bs: seq<Expr>)
    requires |bs| == |cs| + 1
    ensures match Pruned(cs, bs)
            case Exit(b) => Spots(b) <= SpotsIn(bs)
            case Left(cs1, bs1) => SpotsIn(cs1) <= SpotsIn(cs) && SpotsIn(bs1) <= SpotsIn(bs)
    decreases |cs|
  {
    hide Spots;
    if cs != [] && cs[0] != LitBool(true) {
      PrunedSpots(cs[1..], bs[1..]);
      var r := Pruned(cs[1..], bs[1..]);
      if r.Left? && cs[0] != LitBool(false) {
        assert ([cs[0]] + r.conds)[1..] == r.conds && ([bs[0]] + r.branches)[1..] == r.branches;
      }
    }
  }
}
