/** The operands a pure function gets no code for, and when that does no harm: the constants declared
    inside them are read nowhere else. */
module Skipping {
  import opened Lang
  import opened CodeGen
  import opened Trees

  /** The operand of a call that makes a nullable union out of its tag: a pure function gets no
      code for it. */
  predicate IsTagUnion(p: Program, f: FuncId) {
    f < |p.funcs| && p.funcs[f].kind.MakeUnion?
    && UnionIsNullableStruct(p, p.funcs[f].kind.utype) && StructIsTagType(p, p.funcs[f].kind.member)
  }

  predicate Skips(p: Program, e: Expr) {
    e.Call? && IsTagUnion(p, e.func)
  }

  /** The constants declared inside such operands. */
  function SkippedDecls(p: Program, e: Expr): set<ConstId>
    decreases Size(e), 0
  {
    if Skips(p, e) then AssignedAll(Kids(e)) else SkippedDeclsAll(p, Kids(e))
  }

  function SkippedDeclsAll(p: Program, es: seq<Expr>): set<ConstId>
    decreases SizeAll(es), 1
  {
    if es == [] then {} else SkippedDecls(p, es[0]) + SkippedDeclsAll(p, es[1..])
  }

  /** The constants a node reads itself; a self-call reads the bound constants of its function. */
  function OwnReads(bound: seq<ConstId>, e: Expr): set<ConstId> {
    if e.ConstRef? then {e.id} else if e.CallSelf? then set id | id in bound else {}
  }

  /** The constants read outside such operands. */
  function ReadOutside(p: Program, bound: seq<ConstId>, e: Expr): set<ConstId>
    decreases Size(e), 0
  {
    if Skips(p, e) then {} else OwnReads(bound, e) + ReadOutsideAll(p, bound, Kids(e))
  }

  function ReadOutsideAll(p: Program, bound: seq<ConstId>, es: seq<Expr>): set<ConstId>
    decreases SizeAll(es), 1
  {
    if es == [] then {} else ReadOutside(p, bound, es[0]) + ReadOutsideAll(p, bound, es[1..])
  }

  /** No constant declared in an operand without code is read by code. */
  predicate FuncSkipsSafely(p: Program, f: FuncId) {
    p.IsUser(f) && !p.funcs[f].isAction ==>
      SkippedDecls(p, p.funcs[f].kind.body) !! ReadOutside(p, p.funcs[f].kind.consts.bound, p.funcs[f].kind.body)
  }

  predicate SkipsSafelyAnywhere(p: Program) {
    forall f | 0 <= f < |p.funcs| :: FuncSkipsSafely(p, f)
  }

  // ----- The same, expression by expression -----

  /** The constants that frames of this scope need not hold. */
  function Dead(p: Program, sc: Scope): set<ConstId> {
    if sc.isAction || sc.func.None? || !p.IsUser(sc.func.value) then {}
    else SkippedDecls(p, p.funcs[sc.func.value].kind.body)
  }

  predicate NoneDead(p: Program, sc: Scope, ids: seq<ConstId>) {
    forall id | id in ids :: id !in Dead(p, sc)
  }

  /** Outside of operands without code no dead constant is read, inside only dead ones are declared. */
  predicate SkipsSafely(p: Program, sc: Scope, e: Expr)
    decreases e
  {
    match e
    case ConstRef(id) => id !in Dead(p, sc)
    case Assign(_, init) => SkipsSafely(p, sc, init)
    case UnionGet(_, lhs, _, _) => SkipsSafely(p, sc, lhs)
    case Group(es) => AllSkipSafely(p, sc, es)
    case Switch(cs, bs) => AllSkipSafely(p, sc, cs) && AllSkipSafely(p, sc, bs)
    case Call(f, args) => if IsTagUnion(p, f) then AssignedAll(args) <= Dead(p, sc) else AllSkipSafely(p, sc, args)
    case CallDyn(tgt, args, _) => SkipsSafely(p, sc, tgt) && AllSkipSafely(p, sc, args)
    case CallSelf(args) => NoneDead(p, sc, sc.consts.bound) && AllSkipSafely(p, sc, args)
    case Closure(_, args) => AllSkipSafely(p, sc, args)
    case Field(_, lhs, _) => SkipsSafely(p, sc, lhs)
    case UnionCheck(_, lhs, _) => SkipsSafely(p, sc, lhs)
    case _ => true
  }

  predicate AllSkipSafely(p: Program, sc: Scope, es: seq<Expr>)
    decreases es
  {
    es == [] || (SkipsSafely(p, sc, es[0]) && AllSkipSafely(p, sc, es[1..]))
  }

  lemma AllSkipSafelyAt(p: Program, sc: Scope, es: seq<Expr>, i: nat)
    requires AllSkipSafely(p, sc, es) && i < |es|
    ensures SkipsSafely(p, sc, es[i])
  {
    if i > 0 { AllSkipSafelyAt(p, sc, es[1..], i - 1); }
  }

  lemma AllSkipSafelyCat(p: Program, sc: Scope, a: seq<Expr>, b: seq<Expr>)
    ensures AllSkipSafely(p, sc, a + b) <==> AllSkipSafely(p, sc, a) && AllSkipSafely(p, sc, b)
    decreases a
  {
    if a == [] {
      assert a + b == b;
    } else {
      assert (a + b)[1..] == a[1..] + b;
      AllSkipSafelyCat(p, sc, a[1..], b);
    }
  }

  lemma KidsSkipSafely(p: Program, sc: Scope, e: Expr)
    requires AllSkipSafely(p, sc, Kids(e)) && OwnReads(sc.consts.bound, e) !! Dead(p, sc) && !Skips(p, e)
    ensures SkipsSafely(p, sc, e)
  {
    match e
    case Switch(cs, bs) => AllSkipSafelyCat(p, sc, cs, bs);
    case CallDyn(tgt, args, _) => assert Kids(e)[0] == tgt && Kids(e)[1..] == args;
    case CallSelf(_) => assert forall id | id in sc.consts.bound :: id in OwnReads(sc.consts.bound, e);
    case _ =>
  }

  lemma {:induction false} SkipsSafelyFrom(p: Program, sc: Scope, e: Expr)
    requires SkippedDecls(p, e) <= Dead(p, sc) && ReadOutside(p, sc.consts.bound, e) !! Dead(p, sc)
    ensures SkipsSafely(p, sc, e)
    decreases Size(e), 0
  {
    if !Skips(p, e) {
      AllSkipSafelyFrom(p, sc, Kids(e));
      KidsSkipSafely(p, sc, e);
    }
  }

  lemma {:induction false} AllSkipSafelyFrom(p: Program, sc: Scope, es: seq<Expr>)
    requires SkippedDeclsAll(p, es) <= Dead(p, sc) && ReadOutsideAll(p, sc.consts.bound, es) !! Dead(p, sc)
    ensures AllSkipSafely(p, sc, es)
    decreases SizeAll(es), 1
  {
    if es != [] {
      SkipsSafelyFrom(p, sc, es[0]);
      AllSkipSafelyFrom(p, sc, es[1..]);
    }
  }

  /** What the condition on a function means for its body. */
  lemma BodySkipsSafely(p: Program, f: FuncId)
    requires FuncSkipsSafely(p, f) && p.IsUser(f)
    ensures p.funcs[f].isAction || SkipsSafely(p, FuncScope(p, f), p.funcs[f].kind.body)
  {
    if !p.funcs[f].isAction { SkipsSafelyFrom(p, FuncScope(p, f), p.funcs[f].kind.body); }
  }
}
