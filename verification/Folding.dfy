/** Precomputing: operations on literals, switches on literal conditions, dynamic calls of known
    functions and fields of structures that are made on the spot. */
module Folding {
  import opened Lang
  import opened Trees

  /** What the rewriter looks up in the program: the single-argument reinterpretations whose types are
      the same or go from bool to int, and the function that tests an int for zero. */
  datatype Known = Known(identity: set<FuncId>, boolToInt: set<FuncId>, eqZero: FuncId)

  /** What the rewriter computes for two literals. Its right shift keeps the sign: a division that
      rounds toward negative infinity. */
  function PrecomputedBin(op: BinOp, a: int, b: int): Option<int> {
    match op
    case ShiftRightInt => if Unsigned(b) < 32 then Some(a / Pow2(Unsigned(b))) else None
    case _ => ApplyBin(op, a, b)
  }

  predicate IsCheck(op: BinOp) {
    op.CheckEqInt? || op.CheckLeInt? || op.CheckGtInt?
  }

  function BinLiteral(op: BinOp, r: int): Expr {
    if IsCheck(op) then LitBool(r != 0) else LitInt(r)
  }

  function UnLiteral(op: UnOp, r: int): Expr {
    if op.CheckIntZero? then LitBool(r != 0) else LitInt(r)
  }

  predicate AllInts(es: seq<Expr>) {
    forall e | e in es :: e.LitInt?
  }

  /** A call of a built-in function with rewritten arguments. */
  function FoldedIntrinsic(p: Program, k: Known, f: FuncId, args: seq<Expr>): Expr
    requires f < |p.funcs|
  {
    match p.funcs[f].kind
    case Binary(op) =>
      if |args| != 2 then Call(f, args)
      else if AllInts(args) && PrecomputedBin(op, args[0].i, args[1].i).Some? then
        BinLiteral(op, PrecomputedBin(op, args[0].i, args[1].i).value)
      else if op.CheckEqInt? && args[1] == LitInt(0) then Call(k.eqZero, [args[0]])
      else if op.CheckEqInt? && args[0] == LitInt(0) then Call(k.eqZero, [args[1]])
      else Call(f, args)
    case Unary(op) =>
      if |args| == 1 && AllInts(args) then UnLiteral(op, ApplyUn(op, args[0].i)) else Call(f, args)
    case NoOp =>
      if |args| != 1 then Call(f, args)
      else if f in k.identity then args[0]
      else if f in k.boolToInt && args[0].LitBool? then LitInt(Bool(args[0].b))
      else Call(f, args)
    case _ => Call(f, args)
  }

  /** The outcome of removing the arms of a switch whose conditions are literals. */
  datatype Arms = Exit(branch: Expr) | Left(conds: seq<Expr>, branches: seq<Expr>)

  function Pruned(cs: seq<Expr>, bs: seq<Expr>): (r: Arms)
    requires |bs| == |cs| + 1
    ensures r.Left? ==> |r.branches| == |r.conds| + 1
  {
    if cs == [] then Left(cs, bs)
    else if cs[0] == LitBool(true) then Exit(bs[0])
    else if cs[0] == LitBool(false) then Pruned(cs[1..], bs[1..])
    else Behind([cs[0]], [bs[0]], Pruned(cs[1..], bs[1..]))
  }

  /** Arms kept in front of others; a literally true condition discards them. */
  function Behind(cs: seq<Expr>, bs: seq<Expr>, r: Arms): Arms {
    match r
    case Exit(b) => Exit(b)
    case Left(cs1, bs1) => Left(cs + cs1, bs + bs1)
  }

  function SwitchOf(r: Arms): Expr
    requires r.Left? ==> |r.branches| == |r.conds| + 1
  {
    match r
    case Exit(b) => b
    case Left(cs, bs) => if cs == [] then bs[0] else Switch(cs, bs)
  }

  function Folded(p: Program, k: Known, e: Expr): Expr
    decreases Size(e), 0
  {
    match e
    case Call(f, args) =>
      if f < |p.funcs| then FoldedIntrinsic(p, k, f, FoldedAll(p, k, args)) else Call(f, FoldedAll(p, k, args))
    case CallDyn(tgt, args, act) =>
      SizeAllCat([tgt], args);
      if tgt.LitFunc? then Call(tgt.func, FoldedAll(p, k, args))
      else if tgt.Closure? then Call(tgt.func, FoldedAll(p, k, args) + FoldedAll(p, k, tgt.boundArgs))
      else CallDyn(Folded(p, k, tgt), FoldedAll(p, k, args), act)
    case Switch(cs, bs) =>
      if |bs| == |cs| + 1 then SwitchOf(Pruned(FoldedAll(p, k, cs), FoldedAll(p, k, bs)))
      else Switch(FoldedAll(p, k, cs), FoldedAll(p, k, bs))
    case Field(s, lhs, index) =>
      if MakesStruct(p, lhs) && index < |lhs.args| then
        ArgSize(lhs, index);
        Folded(p, k, lhs.args[index])
      else Field(s, Folded(p, k, lhs), index)
    case _ => WithKids(e, FoldedAll(p, k, Kids(e)))
  }

  predicate MakesStruct(p: Program, e: Expr) {
    e.Call? && e.func < |p.funcs| && p.funcs[e.func].kind.MakeStruct?
  }

  lemma ArgSize(e: Expr, i: nat)
    requires e.Call? && i < |e.args|
    ensures Size(e.args[i]) < Size(e)
  {
    SizeOfPart(e.args, i);
  }

  lemma SizeOfPart(es: seq<Expr>, i: nat)
    requires i < |es|
    ensures Size(es[i]) <= SizeAll(es)
  {
    if i > 0 { SizeOfPart(es[1..], i - 1); }
  }

  function FoldedAll(p: Program, k: Known, es: seq<Expr>): (r: seq<Expr>)
    ensures |r| == |es|
    decreases SizeAll(es), 1
  {
    if es == [] then [] else [Folded(p, k, es[0])] + FoldedAll(p, k, es[1..])
  }

  // ----- The pass as a rewriter -----

  class PrecomputeRewriter {
    const prog: Program
    const known: Known
    var modified: bool

    constructor (prog: Program, known: Known)
      ensures this.prog == prog && this.known == known && !modified
    {
      this.prog, this.known, modified := prog, known, false;
    }

    method Rewrite(e: Expr) returns (r: Expr)
      modifies this
      ensures r == Folded(prog, known, e)
      decreases Size(e), 1
    {
      match e
      case Call(_, _) => r := PrecomputeCall(e);
      case CallDyn(_, _, _) => r := PrecomputeCallDyn(e);
      case Switch(_, _) => r := PrecomputeSwitch(e);
      case Field(_, _, _) => r := PrecomputeField(e);
      case _ =>
        var ks := RewriteAll(Kids(e));
        r := WithKids(e, ks);
    }

    method RewriteAll(es: seq<Expr>) returns (r: seq<Expr>)
      modifies this
      ensures r == FoldedAll(prog, known, es)
      decreases SizeAll(es), 2
    {
      r := [];
      for i := 0 to |es|
        invariant FoldedAll(prog, known, es) == r + FoldedAll(prog, known, es[i..])
      {
        SizeOfPart(es, i);
        var x := Rewrite(es[i]);
        assert es[i..][0] == es[i] && es[i..][1..] == es[i + 1..];
        r := r + [x];
      }
    }

    method PrecomputeCall(e: Expr) returns (r: Expr)
      requires e.Call?
      modifies this
      ensures r == Folded(prog, known, e)
      decreases Size(e), 0
    {
      var newArgs := RewriteAll(e.args);
      if e.func < |prog.funcs| {
        r := FoldedIntrinsic(prog, known, e.func, newArgs);
        modified := modified || !r.Call?;
      } else {
        r := Call(e.func, newArgs);
      }
    }

    /** A dynamic call of a function literal or a closure becomes a static call. */
    method PrecomputeCallDyn(e: Expr) returns (r: Expr)
      requires e.CallDyn?
      modifies this
      ensures r == Folded(prog, known, e)
      decreases Size(e), 0
    {
      SizeAllCat([e.tgt], e.args);
      if e.tgt.LitFunc? {
        var newArgs := RewriteAll(e.args);
        r := Call(e.tgt.func, newArgs);
      } else if e.tgt.Closure? {
        var newArgs := RewriteAll(e.args);
        var bound := RewriteAll(e.tgt.boundArgs);
        r := Call(e.tgt.func, newArgs + bound);
      } else {
        var lhs := Rewrite(e.tgt);
        var newArgs := RewriteAll(e.args);
        r := CallDyn(lhs, newArgs, e.act);
      }
    }

    method PrecomputeSwitch(e: Expr) returns (r: Expr)
      requires e.Switch?
      modifies this
      ensures r == Folded(prog, known, e)
      decreases Size(e), 0
    {
      var newConditions := RewriteAll(e.conds);
      var newBranches := RewriteAll(e.branches);
      if |newBranches| != |newConditions| + 1 { return Switch(newConditions, newBranches); }

      ghost var all := Pruned(newConditions, newBranches);
      var i := 0;
      NothingBehind(all);
      assert newConditions[0..] == newConditions && newBranches[0..] == newBranches;
      while i != |newConditions|
        invariant 0 <= i <= |newConditions| && |newBranches| == |newConditions| + 1
        invariant all == Behind(newConditions[..i], newBranches[..i], Pruned(newConditions[i..], newBranches[i..]))
        decreases |newConditions| - i
      {
        ghost var cs, bs := newConditions, newBranches;
        assert cs[i..][0] == cs[i] && bs[i..][0] == bs[i];
        if newConditions[i].LitBool? {
          modified := true;
          if newConditions[i].b {
            // The matching branch is the result, whatever conditions are left before it.
            return newBranches[i];
          }
          newConditions := newConditions[..i] + newConditions[i + 1..];
          newBranches := newBranches[..i] + newBranches[i + 1..];
          assert newConditions[..i] == cs[..i] && newBranches[..i] == bs[..i];
          assert newConditions[i..] == cs[i..][1..] && newBranches[i..] == bs[i..][1..];
        } else {
          BehindStep(cs, bs, i);
          i := i + 1;
        }
      }
      assert newConditions[i..] == [];
      assert all == Left(newConditions, newBranches);
      r := if newConditions == [] then newBranches[0] else Switch(newConditions, newBranches);
    }

    method PrecomputeField(e: Expr) returns (r: Expr)
      requires e.Field?
      modifies this
      ensures r == Folded(prog, known, e)
      decreases Size(e), 0
    {
      if MakesStruct(prog, e.lhs) && e.index < |e.lhs.args| {
        ArgSize(e.lhs, e.index);
        r := Rewrite(e.lhs.args[e.index]);
      } else {
        var lhs := Rewrite(e.lhs);
        r := Field(e.stype, lhs, e.index);
      }
    }
  }

  lemma NothingBehind(r: Arms)
    ensures Behind([], [], r) == r
  {
    if r.Left? { assert [] + r.conds == r.conds && [] + r.branches == r.branches; }
  }

  lemma BehindStep(cs: seq<Expr>, bs: seq<Expr>, i: nat)
    requires |bs| == |cs| + 1 && i < |cs| && !cs[i].LitBool?
    ensures Behind(cs[..i], bs[..i], Pruned(cs[i..], bs[i..]))
         == Behind(cs[..i + 1], bs[..i + 1], Pruned(cs[i + 1..], bs[i + 1..]))
  {
    var r := Pruned(cs[i + 1..], bs[i + 1..]);
    assert cs[i..][1..] == cs[i + 1..] && bs[i..][1..] == bs[i + 1..];
    assert cs[..i + 1] == cs[..i] + [cs[i]] && bs[..i + 1] == bs[..i] + [bs[i]];
    if r.Left? {
      assert cs[..i] + ([cs[i]] + r.conds) == cs[..i + 1] + r.conds;
      assert bs[..i] + ([bs[i]] + r.branches) == bs[..i + 1] + r.branches;
    }
  }
}
