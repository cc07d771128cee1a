/** Which calls reuse the frame: those in tail positions, and no others. */
module TailSites {
  import opened Lang
  import opened Machine
  import opened CodeGen
  import opened Skipping

  /** How many calls in e have nothing left to do behind them: the last expression of a group, all branches
      of a switch, and the struct that a nullable union is made of. */
  function Sites(p: Program, sc: Scope, e: Expr): nat
    decreases e
  {
    match e
    case Group(es) => if es == [] then 0 else Sites(p, sc, es[|es| - 1])
    case Switch(cs, bs) => if |bs| == |cs| + 1 then SitesAll(p, sc, bs) else 0
    case Call(f, args) =>
      if p.IsUser(f) then 1
      else if |args| == 1 && MakesNullableStruct(p, f) then Sites(p, sc, args[0])
      else 0
    case CallDyn(_, _, _) => 1
    case CallSelf(_) => if sc.func.Some? && p.IsUser(sc.func.value) then 1 else 0
    case _ => 0
  }

  function SitesAll(p: Program, sc: Scope, es: seq<Expr>): nat
    decreases es
  {
    if es == [] then 0 else Sites(p, sc, es[0]) + SitesAll(p, sc, es[1..])
  }

  predicate MakesNullableStruct(p: Program, f: FuncId) {
    && f < |p.funcs| && p.funcs[f].kind.MakeUnion?
    && UnionIsNullableStruct(p, p.funcs[f].kind.utype) && !StructIsTagType(p, p.funcs[f].kind.member)
  }

  /** How many instructions leave the frame for good by a call. */
  function TailCalls(code: seq<Instr>): nat {
    if code == [] then 0 else (if IsTailCall(code[0]) then 1 else 0) + TailCalls(code[1..])
  }

  predicate IsTailCall(i: Instr) {
    (i.Call? || i.CallDyn?) && i.tail
  }

  lemma {:induction false} TailCallsCat(a: seq<Instr>, b: seq<Instr>)
    ensures TailCalls(a + b) == TailCalls(a) + TailCalls(b)
    decreases |a|
  {
    if a == [] {
      assert a + b == b;
    } else {
      assert (a + b)[1..] == a[1..] + b;
      TailCallsCat(a[1..], b);
    }
  }

  lemma {:induction false} NoTailCalls(code: seq<Instr>)
    requires forall i | i in code :: !IsTailCall(i)
    ensures TailCalls(code) == 0
    decreases |code|
  {
    if code != [] { NoTailCalls(code[1..]); }
  }

  /** The code of an expression in a tail position makes a tail call for each such call and none beside;
      elsewhere it makes none. */
  lemma {:induction false} TailCallsOf(
    p: Program, sc: Scope, e: Expr, tail: bool, req: nat, pos: nat, ctr: nat)
    ensures TailCalls(Gen(p, sc, e, tail, req, pos, ctr).code) == if tail then Sites(p, sc, e) else 0
    decreases e, 2
  {
    match e
    case Group(es) => TailCallsOfGroup(p, sc, es, tail, pos, ctr);
    case Switch(_, _) => TailCallsOfSwitch(p, sc, e, tail, req, pos, ctr);
    case Call(_, _) => TailCallsOfCall(p, sc, e, tail, req, pos, ctr);
    case CallDyn(_, _, _) => TailCallsOfDyn(p, sc, e, tail, req, pos, ctr);
    case CallSelf(_) => TailCallsOfSelf(p, sc, e, tail, req, pos, ctr);
    case _ => TailCallsOfPlain(p, sc, e, tail, req, pos, ctr);
  }

  lemma {:induction false} TailCallsOfPlain(
    p: Program, sc: Scope, e: Expr, tail: bool, req: nat, pos: nat, ctr: nat)
    requires !e.Group? && !e.Switch? && !e.Call? && !e.CallDyn? && !e.CallSelf?
    ensures TailCalls(Gen(p, sc, e, tail, req, pos, ctr).code) == 0
    decreases e, 1
  {
    hide TailCalls, IsTailCall;
    match e
    case Assign(_, _) => OfAssign(p, sc, e, tail, req, pos, ctr);
    case Closure(_, _) => OfClosure(p, sc, e, tail, req, pos, ctr);
    case Field(_, _, _) => OfField(p, sc, e, tail, req, pos, ctr);
    case UnionCheck(_, _, _) => OfCheck(p, sc, e, tail, req, pos, ctr);
    case UnionGet(_, _, _, _) => OfGet(p, sc, e, tail, req, pos, ctr);
    case _ => OfLeaf(p, sc, e, tail, req, pos, ctr);
  }

  lemma OfLeaf(p: Program, sc: Scope, e: Expr, tail: bool, req: nat, pos: nat, ctr: nat)
    requires e.LitBool? || e.LitInt? || e.LitFunc? || e.ConstRef? || e.FailNode?
    ensures TailCalls(Gen(p, sc, e, tail, req, pos, ctr).code) == 0
  {
    NoTailCalls(Gen(p, sc, e, tail, req, pos, ctr).code);
  }

  lemma {:induction false} OfAssign(p: Program, sc: Scope, e: Expr, tail: bool, req: nat, pos: nat, ctr: nat)
    requires e.Assign?
    ensures TailCalls(Gen(p, sc, e, tail, req, pos, ctr).code) == 0
    decreases e, 0
  {
    TailCallsOf(p, sc, e.init, false, 1, pos, ctr);
    hide TailCalls;
    var more := (if req > 0 then [Dup] else []) + [StackStore(ConstOffset(sc.consts, e.id))];
    NoTailCalls(more);
    TailCallsCat(Gen(p, sc, e.init, false, 1, pos, ctr).code, more);
  }

  lemma {:induction false} OfClosure(p: Program, sc: Scope, e: Expr, tail: bool, req: nat, pos: nat, ctr: nat)
    requires e.Closure?
    ensures TailCalls(Gen(p, sc, e, tail, req, pos, ctr).code) == 0
    decreases e, 0
  {
    NoneInAll(p, sc, e.boundArgs, pos, ctr);
    hide TailCalls;
    var more := [LoadLitIp(FuncLabel(e.func)), Instr.MakeStruct(Narrow8(|e.boundArgs| + 1))];
    NoTailCalls(more);
    TailCallsCat(GenAll(p, sc, e.boundArgs, pos, ctr).code, more);
  }

  lemma {:induction false} OfField(p: Program, sc: Scope, e: Expr, tail: bool, req: nat, pos: nat, ctr: nat)
    requires e.Field?
    ensures TailCalls(Gen(p, sc, e, tail, req, pos, ctr).code) == 0
    decreases e, 0
  {
    TailCallsOf(p, sc, e.lhs, false, 1, pos, ctr);
    hide TailCalls;
    NoTailCalls(FieldInstrs(p, e.stype, e.index));
    TailCallsCat(Gen(p, sc, e.lhs, false, 1, pos, ctr).code, FieldInstrs(p, e.stype, e.index));
  }

  lemma NoTest(p: Program, u: TypeId, t: TypeId)
    ensures forall i | i in UnionTest(p, u, t) :: !IsTailCall(i)
  {
    hide UnionIsNullableStruct, StructIsTagType, UnionDiscriminant;
  }

  lemma {:induction false} OfCheck(p: Program, sc: Scope, e: Expr, tail: bool, req: nat, pos: nat, ctr: nat)
    requires e.UnionCheck?
    ensures TailCalls(Gen(p, sc, e, tail, req, pos, ctr).code) == 0
    decreases e, 0
  {
    TailCallsOf(p, sc, e.lhs, false, 1, pos, ctr);
    NoTest(p, e.utype, e.target);
    hide TailCalls, UnionTest;
    NoTailCalls(UnionTest(p, e.utype, e.target));
    TailCallsCat(Gen(p, sc, e.lhs, false, 1, pos, ctr).code, UnionTest(p, e.utype, e.target));
  }

  lemma {:induction false} OfGet(p: Program, sc: Scope, e: Expr, tail: bool, req: nat, pos: nat, ctr: nat)
    requires e.UnionGet?
    ensures TailCalls(Gen(p, sc, e, tail, req, pos, ctr).code) == 0
    decreases e, 0
  {
    var s1, slot := Gen(p, sc, e.lhs, false, 1, pos, ctr), ConstOffset(sc.consts, e.id);
    var test := UnionTest(p, e.utype, e.target);
    TailCallsOf(p, sc, e.lhs, false, 1, pos, ctr);
    NoTest(p, e.utype, e.target);
    hide TailCalls, UnionTest, UnionIsNullableStruct, StructIsTagType, ConstOffset;
    if UnionIsNullableStruct(p, e.utype) {
      var more := (if StructIsTagType(p, e.target) then [] else [Dup, StackStore(slot)]) + test;
      NoTailCalls(more);
      TailCallsCat(s1.code, more);
    } else {
      var arms := GetArms(Generated(UnionTypeEqual, s1.next), Generated(UnionGetEnd, s1.next + 1), slot);
      NoTailCalls([Dup] + test + arms);
      TailCallsCat(s1.code, [Dup] + test + arms);
    }
  }

  lemma {:induction false} NoneInAll(p: Program, sc: Scope, es: seq<Expr>, pos: nat, ctr: nat)
    ensures TailCalls(GenAll(p, sc, es, pos, ctr).code) == 0
    decreases es, 3
  {
    AllGen(p, sc, es, pos, ctr);
    hide GenAll, Gen;
    if es != [] {
      var s := Gen(p, sc, es[0], false, 1, pos, ctr);
      TailCallsOf(p, sc, es[0], false, 1, pos, ctr);
      NoneInAll(p, sc, es[1..], pos + |s.code|, s.next);
      TailCallsCat(s.code, GenAll(p, sc, es[1..], pos + |s.code|, s.next).code);
    }
  }

  lemma {:induction false} TailCallsOfGroup(p: Program, sc: Scope, es: seq<Expr>, tail: bool, pos: nat, ctr: nat)
    ensures TailCalls(GenGroup(p, sc, es, tail, pos, ctr).code)
         == if tail && es != [] then Sites(p, sc, es[|es| - 1]) else 0
    decreases es, 3
  {
    hide GenGroup, Gen;
    GroupEnds(p, sc, es, tail, pos, ctr);
    if |es| == 1 {
      TailCallsOf(p, sc, es[0], tail, 1, pos, ctr);
    } else if |es| > 1 {
      GroupGen(p, sc, es, tail, pos, ctr);
      var s0, pops := Gen(p, sc, es[0], false, 0, pos, ctr), Repeat(Instr.Pop, Produced(es[0], 0));
      var s := ElementSeg(p, sc, es, pos, ctr);
      TailCallsOf(p, sc, es[0], false, 0, pos, ctr);
      NoTailCalls(pops);
      TailCallsCat(s0.code, pops);
      TailCallsOfGroup(p, sc, es[1..], tail, pos + |s.code|, s.next);
      TailCallsCat(s.code, GenGroup(p, sc, es[1..], tail, pos + |s.code|, s.next).code);
    }
  }

  // ----- Calls -----

  lemma {:induction false} TailCallsOfDyn(
    p: Program, sc: Scope, e: Expr, tail: bool, req: nat, pos: nat, ctr: nat)
    requires e.CallDyn?
    ensures TailCalls(Gen(p, sc, e, tail, req, pos, ctr).code) == if tail then 1 else 0
    decreases e, 1
  {
    var s1, i := GenAll(p, sc, e.args, pos, ctr), Instr.CallDyn(Narrow8(|e.args|), tail);
    var s2 := Gen(p, sc, e.tgt, false, 1, pos + |s1.code|, s1.next);
    assert Gen(p, sc, e, tail, req, pos, ctr) == s1.Cat(s2).Emit([i]);
    hide Gen, GenAll;
    NoneInAll(p, sc, e.args, pos, ctr);
    TailCallsOf(p, sc, e.tgt, false, 1, pos + |s1.code|, s1.next);
    TailCallsCat(s1.code, s2.code);
    OneCall(s1.code + s2.code, i);
  }

  lemma OneCall(code: seq<Instr>, i: Instr)
    ensures TailCalls(code + [i]) == TailCalls(code) + if IsTailCall(i) then 1 else 0
  {
    TailCallsCat(code, [i]);
    assert [i][1..] == [];
  }

  lemma {:induction false} TailCallsOfSelf(
    p: Program, sc: Scope, e: Expr, tail: bool, req: nat, pos: nat, ctr: nat)
    requires e.CallSelf?
    ensures TailCalls(Gen(p, sc, e, tail, req, pos, ctr).code) == if tail then Sites(p, sc, e) else 0
    decreases e, 1
  {
    if sc.func.Some? && p.IsUser(sc.func.value) {
      var s1, loads := GenAll(p, sc, e.args, pos, ctr), LoadConsts(sc.consts, sc.consts.bound);
      var i := Instr.Call(Narrow8(|p.funcs[sc.func.value].kind.consts.Inputs()|), FuncLabel(sc.func.value), tail);
      assert Gen(p, sc, e, tail, req, pos, ctr) == s1.Emit(loads + [i]);
      hide Gen, GenAll, LoadConsts;
      NoneInAll(p, sc, e.args, pos, ctr);
      NoTailCalls(loads);
      OneCall(loads, i);
      TailCallsCat(s1.code, loads + [i]);
    }
  }

  lemma {:induction false} TailCallsOfCall(
    p: Program, sc: Scope, e: Expr, tail: bool, req: nat, pos: nat, ctr: nat)
    requires e.Call?
    ensures TailCalls(Gen(p, sc, e, tail, req, pos, ctr).code) == if tail then Sites(p, sc, e) else 0
    decreases e, 1
  {
    if e.func < |p.funcs| {
      if p.funcs[e.func].kind.MakeUnion? {
        TailCallsOfUnion(p, sc, e, tail, req, pos, ctr);
      } else {
        NoneInAll(p, sc, e.args, pos, ctr);
        TailCallsOfInstrs(p, e.func, |e.args|, tail);
        hide TailCalls, CallInstrs, GenAll;
        TailCallsCat(GenAll(p, sc, e.args, pos, ctr).code, CallInstrs(p, e.func, |e.args|, tail));
      }
    }
  }

  lemma TailCallsOfInstrs(p: Program, f: FuncId, n: nat, tail: bool)
    requires f < |p.funcs|
    ensures TailCalls(CallInstrs(p, f, n, tail)) == if tail && p.IsUser(f) then 1 else 0
  {
    var code := CallInstrs(p, f, n, tail);
    if p.IsUser(f) {
      assert code[1..] == [];
    } else {
      hide TailCalls;
      NoTailCalls(code);
    }
  }

  lemma {:induction false} TailCallsOfUnion(
    p: Program, sc: Scope, e: Expr, tail: bool, req: nat, pos: nat, ctr: nat)
    requires e.Call? && e.func < |p.funcs| && p.funcs[e.func].kind.MakeUnion?
    ensures TailCalls(Gen(p, sc, e, tail, req, pos, ctr).code) == if tail then Sites(p, sc, e) else 0
    decreases e, 0
  {
    if |e.args| == 1 {
      var u, t, arg := p.funcs[e.func].kind.utype, p.funcs[e.func].kind.member, e.args[0];
      assert Gen(p, sc, e, tail, req, pos, ctr) == GenUnion(p, sc, u, t, e.args, tail, pos, ctr);
      hide UnionIsNullableStruct, StructIsTagType, UnionDiscriminant, TailCalls;
      if UnionIsNullableStruct(p, u) && !StructIsTagType(p, t) {
        TailCallsOf(p, sc, arg, tail, 1, pos, ctr);
      } else if UnionIsNullableStruct(p, u) {
        var s := Gen(p, sc, arg, false, 1, pos, ctr);
        TailCallsOf(p, sc, arg, false, 1, pos, ctr);
        OneCall(s.code, Instr.Pop);
        OneCall(s.code + [Instr.Pop], MakeNullStruct);
        NoTailCalls([MakeNullStruct]);
        assert [] + [MakeNullStruct] == [MakeNullStruct];
      } else {
        var s := Gen(p, sc, arg, false, 1, pos + 1, ctr);
        TailCallsOf(p, sc, arg, false, 1, pos + 1, ctr);
        NoTailCalls([LoadLitInt(UnionDiscriminant(p, u, t))]);
        TailCallsCat([LoadLitInt(UnionDiscriminant(p, u, t))], s.code);
        OneCall([LoadLitInt(UnionDiscriminant(p, u, t))] + s.code, Instr.MakeStruct(2));
      }
    }
  }

  // ----- Switches -----

  lemma {:induction false} TailCallsOfSwitch(
    p: Program, sc: Scope, e: Expr, tail: bool, req: nat, pos: nat, ctr: nat)
    requires e.Switch?
    ensures TailCalls(Gen(p, sc, e, tail, req, pos, ctr).code) == if tail then Sites(p, sc, e) else 0
    decreases e, 1
  {
    hide Gen, GenSwitch, GenConds, GenBranches, TailCalls, Sites, SitesAll, IsTailCall;
    SwitchSites(p, sc, e);
    if |e.branches| == |e.conds| + 1 {
      var s, n := GenSwitch(p, sc, e, tail, pos, ctr), |e.conds|;
      SwitchPieces(p, sc, e, tail, req, pos, ctr);
      NoneInConds(p, sc, e.conds, ctr, pos, ctr + n + 1);
      TailCallsOf(p, sc, e.branches[n], tail, 1, pos + |s.tests.code|, s.tests.next);
      TailCallsOfBranches(p, sc, e.branches, tail, ctr, s.end, s.at, s.other.next);
      SumOfBranches(p, sc, e.branches);
      FourPieces(s.tests.code, s.other.code, s.end, s.rest.code);
    } else {
      NoSwitch(p, sc, e, tail, req, pos, ctr);
    }
  }

  lemma SwitchSites(p: Program, sc: Scope, e: Expr)
    requires e.Switch?
    ensures Sites(p, sc, e) == if |e.branches| == |e.conds| + 1 then SitesAll(p, sc, e.branches) else 0
  {
    hide SitesAll;
  }

  lemma NoSwitch(p: Program, sc: Scope, e: Expr, tail: bool, req: nat, pos: nat, ctr: nat)
    requires e.Switch? && |e.branches| != |e.conds| + 1
    ensures TailCalls(Gen(p, sc, e, tail, req, pos, ctr).code) == 0
  {}

  lemma FourPieces(a: seq<Instr>, b: seq<Instr>, end: Label, c: seq<Instr>)
    ensures TailCalls(a + b + [Jump(end)] + c) == TailCalls(a) + TailCalls(b) + TailCalls(c)
  {
    hide TailCalls;
    TailCallsCat(a, b);
    OneCall(a + b, Jump(end));
    TailCallsCat(a + b + [Jump(end)], c);
  }

  lemma SwitchPieces(p: Program, sc: Scope, e: Expr, tail: bool, req: nat, pos: nat, ctr: nat)
    requires e.Switch? && |e.branches| == |e.conds| + 1
    ensures var s, n := GenSwitch(p, sc, e, tail, pos, ctr), |e.conds|;
            && Gen(p, sc, e, tail, req, pos, ctr).code == s.tests.code + s.other.code + [Jump(s.end)] + s.rest.code
            && s.tests == GenConds(p, sc, e.conds, ctr, pos, ctr + n + 1)
            && s.other == Gen(p, sc, e.branches[n], tail, 1, pos + |s.tests.code|, s.tests.next)
            && s.rest == GenBranches(p, sc, e.branches, tail, ctr, s.end, s.at, s.other.next)
  {
    hide GenConds, GenBranches;
  }

  /** All but the last, and the last. */
  lemma {:induction false} SumOfBranches(p: Program, sc: Scope, bs: seq<Expr>)
    requires bs != []
    ensures SitesAll(p, sc, bs) == SitesAll(p, sc, bs[..|bs| - 1]) + Sites(p, sc, bs[|bs| - 1])
    decreases |bs|
  {
    hide Sites;
    if |bs| == 1 {
      assert bs[1..] == [] && bs[..0] == [];
    } else {
      assert bs[..|bs| - 1][1..] == bs[1..][..|bs| - 2];
      SumOfBranches(p, sc, bs[1..]);
    }
  }

  lemma {:induction false} NoneInConds(p: Program, sc: Scope, cs: seq<Expr>, first: nat, pos: nat, ctr: nat)
    ensures TailCalls(GenConds(p, sc, cs, first, pos, ctr).code) == 0
    decreases cs, 3
  {
    CondsGen(p, sc, cs, first, pos, ctr);
    hide GenConds, Gen;
    if cs != [] {
      var s0, jump := Gen(p, sc, cs[0], false, 1, pos, ctr), JumpIf(Generated(SwitchIf, first));
      var s := s0.Emit([jump]);
      TailCallsOf(p, sc, cs[0], false, 1, pos, ctr);
      OneCall(s0.code, jump);
      NoneInConds(p, sc, cs[1..], first + 1, pos + |s.code|, s.next);
      TailCallsCat(s.code, GenConds(p, sc, cs[1..], first + 1, pos + |s.code|, s.next).code);
    }
  }

  lemma {:induction false} TailCallsOfBranches(
    p: Program, sc: Scope, bs: seq<Expr>, tail: bool, first: nat, end: Label, pos: nat, ctr: nat)
    requires bs != []
    ensures TailCalls(GenBranches(p, sc, bs, tail, first, end, pos, ctr).code)
         == if tail then SitesAll(p, sc, bs[..|bs| - 1]) else 0
    decreases bs, 3
  {
    hide GenBranches, Gen, Sites, SitesAll, TailCalls, IsTailCall;
    BranchesGen(p, sc, bs, tail, first, end, pos, ctr);
    BranchSites(p, sc, bs);
    NoTailCalls([]);
    if |bs| > 1 {
      var start, s0 := Seg([], [], ctr).Declare(Generated(SwitchIf, first), pos), Gen(p, sc, bs[0], tail, 1, pos, ctr);
      var more := if |bs| > 2 then [Jump(end)] else [];
      var s := start.Cat(s0).Emit(more);
      TailCallsOf(p, sc, bs[0], tail, 1, pos, ctr);
      TailCallsOfBranches(p, sc, bs[1..], tail, first + 1, end, pos + |s.code|, s.next);
      BranchPieces(s0.code, end, |bs| > 2, GenBranches(p, sc, bs[1..], tail, first + 1, end, pos + |s.code|, s.next).code);
    }
  }

  lemma BranchSites(p: Program, sc: Scope, bs: seq<Expr>)
    requires bs != []
    ensures |bs| == 1 ==> SitesAll(p, sc, bs[..|bs| - 1]) == 0
    ensures |bs| > 1 ==> SitesAll(p, sc, bs[..|bs| - 1]) == Sites(p, sc, bs[0]) + SitesAll(p, sc, bs[1..][..|bs| - 2])
  {
    hide Sites;
    if |bs| > 1 { assert bs[..|bs| - 1][1..] == bs[1..][..|bs| - 2]; }
  }

  lemma BranchPieces(a: seq<Instr>, end: Label, jumps: bool, c: seq<Instr>)
    ensures TailCalls([] + a + (if jumps then [Jump(end)] else []) + c) == TailCalls(a) + TailCalls(c)
  {
    hide TailCalls;
    assert [] + a == a && a + [] == a;
    if jumps { OneCall(a, Jump(end)); }
    TailCallsCat(a + if jumps then [Jump(end)] else [], c);
  }
}
