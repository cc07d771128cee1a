/** Tail calls. A function that goes on by calling itself in tail position runs in one frame of bounded
    height, and a tail call returns what a normal call followed by a return would. */
module TailCalls {
  import opened Lang
  import opened Machine
  import opened CodeGen
  import opened Heights
  import opened FrameRuns
  import opened Representation
  import Correctness

  // ----- Calls supply what their function takes -----

  predicate IsTail(i: Instr) {
    (i.Call? || i.CallDyn?) && i.tail
  }

  /** A call supplies as many words as its function takes; only code for tail positions has tail calls. */
  predicate Matches(p: Program, tail: bool, i: Instr) {
    && (i.Call? ==> i.target.FuncLabel? && p.IsUser(i.target.func) && i.argCount == |p.funcs[i.target.func].kind.consts.Inputs()|)
    && (IsTail(i) ==> tail)
  }

  ghost predicate AllMatch(p: Program, tail: bool, code: seq<Instr>) {
    forall i | i in code :: Matches(p, tail, i)
  }

  lemma Weaken(p: Program, tail: bool, code: seq<Instr>)
    requires AllMatch(p, false, code)
    ensures AllMatch(p, tail, code)
  {}

  lemma MatchCat(p: Program, tail: bool, a: seq<Instr>, b: seq<Instr>)
    ensures AllMatch(p, tail, a + b) <==> AllMatch(p, tail, a) && AllMatch(p, tail, b)
  {
    assert forall i :: i in a + b <==> i in a || i in b;
  }

  predicate NoCalls(code: seq<Instr>) {
    forall i | i in code :: !i.Call? && !i.CallDyn?
  }

  /** More instructions without calls. */
  lemma MatchMore(p: Program, tail: bool, s: Seg, more: seq<Instr>)
    requires AllMatch(p, tail, s.code) && NoCalls(more)
    ensures AllMatch(p, tail, s.Emit(more).code)
  {
    MatchCat(p, tail, s.code, more);
  }

  /** As MatchMore, after code that is not in a tail position. */
  lemma MatchAfter(p: Program, tail: bool, s: Seg, more: seq<Instr>)
    requires AllMatch(p, false, s.code) && NoCalls(more)
    ensures AllMatch(p, tail, s.Emit(more).code)
  {
    Weaken(p, tail, s.code);
    MatchMore(p, tail, s, more);
  }

  lemma {:induction false} GenMatches(p: Program, sc: Scope, e: Expr, tail: bool, req: nat, pos: nat, ctr: nat)
    requires Shaped(p, sc, e)
    ensures AllMatch(p, tail, Gen(p, sc, e, tail, req, pos, ctr).code)
    decreases e, 1
  {
    hide GenAll, GenGroup, GenUnion, GenSwitch, GetMember, CallInstrs, FieldInstrs, UnionTest, LoadConsts, AllMatch;
    match e
    case Assign(_, init) =>
      GenMatches(p, sc, init, false, 1, pos, ctr);
      MatchAfter(p, tail, Gen(p, sc, init, false, 1, pos, ctr),
                 (if req > 0 then [Dup] else []) + [StackStore(ConstOffset(sc.consts, e.id))]);
    case Group(es) => GroupMatches(p, sc, es, tail, pos, ctr);
    case Switch(_, _) => SwitchMatches(p, sc, e, tail, pos, ctr);
    case Call(_, _) => CallMatches(p, sc, e, tail, req, pos, ctr);
    case CallDyn(_, _, _) => DynMatches(p, sc, e, tail, req, pos, ctr);
    case CallSelf(_) => SelfMatches(p, sc, e, tail, req, pos, ctr);
    case Closure(f, args) =>
      AllMatches(p, sc, args, pos, ctr);
      MatchAfter(p, tail, GenAll(p, sc, args, pos, ctr), [LoadLitIp(FuncLabel(f)), Instr.MakeStruct(Narrow8(|args| + 1))]);
    case Field(s, lhs, index) =>
      GenMatches(p, sc, lhs, false, 1, pos, ctr);
      FieldHasNoCalls(p, s, index);
      MatchAfter(p, tail, Gen(p, sc, lhs, false, 1, pos, ctr), FieldInstrs(p, s, index));
    case UnionCheck(u, lhs, t) =>
      GenMatches(p, sc, lhs, false, 1, pos, ctr);
      TestHasNoCalls(p, u, t);
      MatchAfter(p, tail, Gen(p, sc, lhs, false, 1, pos, ctr), UnionTest(p, u, t));
    case UnionGet(_, _, _, _) => GetMatches(p, sc, e, tail, req, pos, ctr);
    case _ => NoneMatches(p, tail, Gen(p, sc, e, tail, req, pos, ctr).code);
  }

  lemma NoneMatches(p: Program, tail: bool, code: seq<Instr>)
    requires NoCalls(code)
    ensures AllMatch(p, tail, code)
  {}

  lemma FieldHasNoCalls(p: Program, s: TypeId, index: nat)
    ensures NoCalls(FieldInstrs(p, s, index))
  {}

  lemma TestHasNoCalls(p: Program, u: TypeId, t: TypeId)
    ensures NoCalls(UnionTest(p, u, t))
  {
    hide UnionIsNullableStruct;
  }

  lemma {:induction false} AllMatches(p: Program, sc: Scope, es: seq<Expr>, pos: nat, ctr: nat)
    requires AllShaped(p, sc, es)
    ensures AllMatch(p, false, GenAll(p, sc, es, pos, ctr).code)
    decreases es, 0
  {
    hide Gen, GenAll, AllMatch;
    AllGen(p, sc, es, pos, ctr);
    if es == [] {
      NoneMatches(p, false, []);
    } else {
      var s := Gen(p, sc, es[0], false, 1, pos, ctr);
      GenMatches(p, sc, es[0], false, 1, pos, ctr);
      AllMatches(p, sc, es[1..], pos + |s.code|, s.next);
      MatchCat(p, false, s.code, GenAll(p, sc, es[1..], pos + |s.code|, s.next).code);
    }
  }

  lemma {:induction false} GroupMatches(p: Program, sc: Scope, es: seq<Expr>, tail: bool, pos: nat, ctr: nat)
    requires AllShaped(p, sc, es)
    ensures AllMatch(p, tail, GenGroup(p, sc, es, tail, pos, ctr).code)
    decreases es, 0
  {
    hide Gen, GenGroup, AllMatch;
    GroupEnds(p, sc, es, tail, pos, ctr);
    if es == [] {
      NoneMatches(p, tail, []);
    } else if |es| == 1 {
      GenMatches(p, sc, es[0], tail, 1, pos, ctr);
    } else {
      var s := ElementSeg(p, sc, es, pos, ctr);
      GroupGen(p, sc, es, tail, pos, ctr);
      ElementMatches(p, sc, es, pos, ctr);
      GroupMatches(p, sc, es[1..], tail, pos + |s.code|, s.next);
      Weaken(p, tail, s.code);
      MatchCat(p, tail, s.code, GenGroup(p, sc, es[1..], tail, pos + |s.code|, s.next).code);
    }
  }

  lemma {:induction false} ElementMatches(p: Program, sc: Scope, es: seq<Expr>, pos: nat, ctr: nat)
    requires AllShaped(p, sc, es) && es != []
    ensures AllMatch(p, false, ElementSeg(p, sc, es, pos, ctr).code)
    decreases es[0], 2
  {
    hide Gen, AllMatch;
    var pops := Repeat(Instr.Pop, Produced(es[0], 0));
    assert NoCalls(pops);
    GenMatches(p, sc, es[0], false, 0, pos, ctr);
    MatchMore(p, false, Gen(p, sc, es[0], false, 0, pos, ctr), pops);
  }

  lemma {:induction false} CallMatches(p: Program, sc: Scope, e: Expr, tail: bool, req: nat, pos: nat, ctr: nat)
    requires e.Call? && Shaped(p, sc, e)
    ensures AllMatch(p, tail, Gen(p, sc, e, tail, req, pos, ctr).code)
    decreases e, 0
  {
    var f, args := e.func, e.args;
    if p.funcs[f].kind.MakeUnion? {
      var u, t := p.funcs[f].kind.utype, p.funcs[f].kind.member;
      assert Gen(p, sc, e, tail, req, pos, ctr) == GenUnion(p, sc, u, t, args, tail, pos, ctr);
      assert args[0] in args;
      hide Gen, GenUnion, Shaped, AllMatch;
      UnionMatches(p, sc, u, t, args, tail, pos, ctr);
    } else {
      var more := CallInstrs(p, f, |args|, tail);
      assert Gen(p, sc, e, tail, req, pos, ctr) == GenAll(p, sc, args, pos, ctr).Emit(more);
      CallInstrsMatch(p, f, |args|, tail);
      hide Gen, GenAll, CallInstrs, AllMatch;
      AllMatches(p, sc, args, pos, ctr);
      Weaken(p, tail, GenAll(p, sc, args, pos, ctr).code);
      MatchCat(p, tail, GenAll(p, sc, args, pos, ctr).code, more);
    }
  }

  lemma CallInstrsMatch(p: Program, f: FuncId, n: nat, tail: bool)
    requires CallShaped(p, f, n)
    ensures AllMatch(p, tail, CallInstrs(p, f, n, tail))
  {}

  lemma {:induction false} UnionMatches(
    p: Program, sc: Scope, u: TypeId, t: TypeId, args: seq<Expr>, tail: bool, pos: nat, ctr: nat)
    requires |args| == 1 && Shaped(p, sc, args[0])
    ensures AllMatch(p, tail, GenUnion(p, sc, u, t, args, tail, pos, ctr).code)
    ensures !UnionIsNullableStruct(p, u) || StructIsTagType(p, t)
            ==> AllMatch(p, false, GenUnion(p, sc, u, t, args, tail, pos, ctr).code)
    decreases args, 0
  {
    hide Gen, UnionIsNullableStruct, StructIsTagType, AllMatch;
    GenMatches(p, sc, args[0], false, 1, pos, ctr);
    GenMatches(p, sc, args[0], tail, 1, pos, ctr);
    GenMatches(p, sc, args[0], false, 1, pos + 1, ctr);
    var s, s2 := Gen(p, sc, args[0], false, 1, pos, ctr), Gen(p, sc, args[0], false, 1, pos + 1, ctr);
    NoneMatches(p, false, []);
    MatchMore(p, false, Seg([], [], ctr), [MakeNullStruct]);
    MatchMore(p, false, s, [Instr.Pop]);
    MatchMore(p, false, s.Emit([Instr.Pop]), [MakeNullStruct]);
    var load := [LoadLitInt(UnionDiscriminant(p, u, t))];
    NoneMatches(p, false, load);
    MatchCat(p, false, load, s2.code);
    MatchMore(p, false, Seg(load, [], ctr).Cat(s2), [Instr.MakeStruct(2)]);
    if !UnionIsNullableStruct(p, u) || StructIsTagType(p, t) { Weaken(p, tail, GenUnion(p, sc, u, t, args, tail, pos, ctr).code); }
  }

  lemma {:induction false} DynMatches(p: Program, sc: Scope, e: Expr, tail: bool, req: nat, pos: nat, ctr: nat)
    requires e.CallDyn? && Shaped(p, sc, e)
    ensures AllMatch(p, tail, Gen(p, sc, e, tail, req, pos, ctr).code)
    ensures AllMatch(p, false, DynOperands(p, sc, e, pos, ctr).code)
    decreases e, 0
  {
    hide Gen, GenAll, AllMatch;
    DynGen(p, sc, e, tail, req, pos, ctr);
    var s1 := GenAll(p, sc, e.args, pos, ctr);
    var s2 := Gen(p, sc, e.tgt, false, 1, pos + |s1.code|, s1.next);
    AllMatches(p, sc, e.args, pos, ctr);
    GenMatches(p, sc, e.tgt, false, 1, pos + |s1.code|, s1.next);
    MatchCat(p, false, s1.code, s2.code);
    Weaken(p, tail, s1.Cat(s2).code);
    OneCall(p, tail, Instr.CallDyn(Narrow8(|e.args|), tail));
    MatchCat(p, tail, s1.Cat(s2).code, [Instr.CallDyn(Narrow8(|e.args|), tail)]);
  }

  function DynOperands(p: Program, sc: Scope, e: Expr, pos: nat, ctr: nat): Seg
    requires e.CallDyn?
  {
    var s1 := GenAll(p, sc, e.args, pos, ctr);
    s1.Cat(Gen(p, sc, e.tgt, false, 1, pos + |s1.code|, s1.next))
  }

  lemma {:induction false} SelfMatches(p: Program, sc: Scope, e: Expr, tail: bool, req: nat, pos: nat, ctr: nat)
    requires e.CallSelf? && Shaped(p, sc, e)
    ensures AllMatch(p, tail, Gen(p, sc, e, tail, req, pos, ctr).code)
    ensures AllMatch(p, false, GenAll(p, sc, e.args, pos, ctr).Emit(LoadConsts(sc.consts, sc.consts.bound)).code)
    decreases e, 0
  {
    SelfGen(p, sc, e, tail, req, pos, ctr);
    hide Gen, GenAll, AllMatch;
    var loads, s := LoadConsts(sc.consts, sc.consts.bound), GenAll(p, sc, e.args, pos, ctr);
    var call := Instr.Call(Narrow8(|p.funcs[sc.func.value].kind.consts.Inputs()|), FuncLabel(sc.func.value), tail);
    assert NoCalls(loads);
    OneCall(p, tail, call);
    AllMatches(p, sc, e.args, pos, ctr);
    MatchMore(p, false, s, loads);
    Weaken(p, tail, s.Emit(loads).code);
    MatchCat(p, tail, s.Emit(loads).code, [call]);
    EmitTwice(s, loads, [call]);
  }

  lemma OneCall(p: Program, tail: bool, i: Instr)
    requires Matches(p, tail, i)
    ensures AllMatch(p, tail, [i])
  {}

  lemma {:induction false} GetMatches(p: Program, sc: Scope, e: Expr, tail: bool, req: nat, pos: nat, ctr: nat)
    requires e.UnionGet? && Shaped(p, sc, e)
    ensures AllMatch(p, tail, Gen(p, sc, e, tail, req, pos, ctr).code)
    decreases e, 0
  {
    hide Gen, UnionIsNullableStruct, StructIsTagType, UnionTest, AllMatch;
    GetGen(p, sc, e, tail, req, pos, ctr);
    var s1, test, slot := Gen(p, sc, e.lhs, false, 1, pos, ctr), UnionTest(p, e.utype, e.target), ConstOffset(sc.consts, e.id);
    GenMatches(p, sc, e.lhs, false, 1, pos, ctr);
    Weaken(p, tail, s1.code);
    TestHasNoCalls(p, e.utype, e.target);
    MatchMore(p, tail, s1, test);
    MatchMore(p, tail, s1, [Dup, StackStore(slot)]);
    MatchMore(p, tail, s1.Emit([Dup, StackStore(slot)]), test);
    MemberMatches(p, tail, s1, test, slot, pos + |s1.code|);
  }

  lemma MemberMatches(p: Program, tail: bool, s1: Seg, test: seq<Instr>, slot: nat, at: nat)
    requires AllMatch(p, tail, s1.code) && NoCalls(test)
    ensures AllMatch(p, tail, GetMember(s1, test, slot, at).code)
  {
    hide AllMatch;
    var more := [Dup] + test + GetArms(Generated(UnionTypeEqual, s1.next), Generated(UnionGetEnd, s1.next + 1), slot);
    assert NoCalls(more);
    MatchMore(p, tail, s1, more);
  }

  lemma {:induction false} CondsMatch(p: Program, sc: Scope, cs: seq<Expr>, first: nat, pos: nat, ctr: nat)
    requires AllShaped(p, sc, cs)
    ensures AllMatch(p, false, GenConds(p, sc, cs, first, pos, ctr).code)
    decreases cs, 0
  {
    hide Gen, GenConds, AllMatch;
    CondsGen(p, sc, cs, first, pos, ctr);
    if cs == [] {
      NoneMatches(p, false, []);
    } else {
      var test, jump := Gen(p, sc, cs[0], false, 1, pos, ctr), JumpIf(Generated(SwitchIf, first));
      var s := test.Emit([jump]);
      GenMatches(p, sc, cs[0], false, 1, pos, ctr);
      MatchMore(p, false, test, [jump]);
      CondsMatch(p, sc, cs[1..], first + 1, pos + |s.code|, s.next);
      MatchCat(p, false, s.code, GenConds(p, sc, cs[1..], first + 1, pos + |s.code|, s.next).code);
    }
  }

  lemma {:induction false} BranchesMatch(
    p: Program, sc: Scope, bs: seq<Expr>, tail: bool, first: nat, end: Label, pos: nat, ctr: nat)
    requires AllShaped(p, sc, bs) && bs != []
    ensures AllMatch(p, tail, GenBranches(p, sc, bs, tail, first, end, pos, ctr).code)
    decreases bs, 0
  {
    hide Gen, GenBranches, AllMatch;
    BranchesGen(p, sc, bs, tail, first, end, pos, ctr);
    NoneMatches(p, tail, []);
    if |bs| > 1 {
      var start := Seg([], [], ctr).Declare(Generated(SwitchIf, first), pos);
      var b, jump := Gen(p, sc, bs[0], tail, 1, pos, ctr), if |bs| > 2 then [Jump(end)] else [];
      var s := start.Cat(b).Emit(jump);
      GenMatches(p, sc, bs[0], tail, 1, pos, ctr);
      MatchCat(p, tail, [], b.code);
      MatchMore(p, tail, start.Cat(b), jump);
      BranchesMatch(p, sc, bs[1..], tail, first + 1, end, pos + |s.code|, s.next);
      MatchCat(p, tail, s.code, GenBranches(p, sc, bs[1..], tail, first + 1, end, pos + |s.code|, s.next).code);
    }
  }

  lemma {:induction false} SwitchMatches(p: Program, sc: Scope, e: Expr, tail: bool, pos: nat, ctr: nat)
    requires e.Switch? && Shaped(p, sc, e)
    ensures AllMatch(p, tail, GenSwitch(p, sc, e, tail, pos, ctr).All().code)
    decreases e, 0
  {
    hide Gen, GenConds, GenBranches, GenSwitch, AllMatch;
    var n, s := |e.conds|, GenSwitch(p, sc, e, tail, pos, ctr);
    SwitchParts(p, sc, e, tail, pos, ctr);
    CondsMatch(p, sc, e.conds, ctr, pos, ctr + n + 1);
    Weaken(p, tail, s.tests.code);
    GenMatches(p, sc, e.branches[n], tail, 1, pos + |s.tests.code|, s.tests.next);
    BranchesMatch(p, sc, e.branches, tail, ctr, s.end, s.at, s.other.next);
    MatchCat(p, tail, s.tests.code, s.other.code);
    MatchMore(p, tail, s.tests.Cat(s.other), [Jump(s.end)]);
    MatchCat(p, tail, s.tests.Cat(s.other).Emit([Jump(s.end)]).code, s.rest.code);
  }

  lemma FuncMatches(p: Program, f: FuncId, pos: nat, ctr: nat)
    requires FuncShaped(p, f)
    ensures AllMatch(p, true, GenFunc(p, f, pos, ctr).code)
  {
    var kind, sc := p.funcs[f].kind, FuncScope(p, f);
    var reserve := ReserveConsts(kind.consts);
    var start := Seg(reserve, [Decl(FuncLabel(f), pos)], ctr);
    var body := Gen(p, sc, kind.body, true, 1, pos + |reserve|, ctr);
    hide Gen, AllMatch;
    NoneMatches(p, true, reserve);
    GenMatches(p, sc, kind.body, true, 1, pos + |reserve|, ctr);
    MatchCat(p, true, reserve, body.code);
    MatchMore(p, true, start.Cat(body), [Ret]);
  }

  // ----- Behind a tail call there are only jumps to a return -----

  ghost predicate Leads(c: Code, at: nat) {
    exists k: nat :: LeadsToRet(c, at, k)
  }

  /** From behind every tail call of this code, which stands at pos, only jumps lead to a return. */
  ghost predicate TailsLead(c: Code, pos: nat, code: seq<Instr>) {
    forall i | 0 <= i < |code| && IsTail(code[i]) :: Leads(c, pos + i + 1)
  }

  lemma TailsCat(c: Code, pos: nat, a: seq<Instr>, b: seq<Instr>)
    requires TailsLead(c, pos, a) && TailsLead(c, pos + |a|, b)
    ensures TailsLead(c, pos, a + b)
  {
    forall i | 0 <= i < |a + b| && IsTail((a + b)[i]) ensures Leads(c, pos + i + 1) {
      if i < |a| { assert IsTail(a[i]); } else { assert IsTail(b[i - |a|]); }
    }
  }

  lemma NoTails(p: Program, c: Code, pos: nat, code: seq<Instr>)
    requires AllMatch(p, false, code)
    ensures TailsLead(c, pos, code)
  {
    forall i | 0 <= i < |code| ensures !IsTail(code[i]) {
      assert code[i] in code && Matches(p, false, code[i]);
    }
  }

  /** Code without tail calls, then one call. */
  lemma CallAtEnd(p: Program, c: Code, pos: nat, a: seq<Instr>, i: Instr)
    requires AllMatch(p, false, a) && Leads(c, pos + |a| + 1)
    ensures TailsLead(c, pos, a + [i])
  {
    NoTails(p, c, pos, a);
    TailsCat(c, pos, a, [i]);
  }

  /** A jump to a place from which a return follows. */
  lemma JumpLeads(c: Code, at: nat, l: Label)
    requires at < |c.instrs| && c.instrs[at] == Jump(l) && l in c.labels && Leads(c, c.labels[l])
    ensures Leads(c, at)
  {
    var k: nat :| LeadsToRet(c, c.labels[l], k);
    assert LeadsToRet(c, at, k + 1);
  }

  lemma {:induction false} GenTailsLead(p: Program, sc: Scope, e: Expr, pos: nat, ctr: nat, c: Code)
    requires Shaped(p, sc, e) && Embedded(c, pos, Gen(p, sc, e, true, 1, pos, ctr))
    requires Leads(c, pos + |Gen(p, sc, e, true, 1, pos, ctr).code|)
    ensures TailsLead(c, pos, Gen(p, sc, e, true, 1, pos, ctr).code)
    decreases e, 1
  {
    hide Gen, GenAll, Embedded, TailsLead, Leads;
    match e
    case Group(es) =>
      GroupIs(p, sc, e, pos, ctr);
      GroupTailsLead(p, sc, es, pos, ctr, c);
    case Switch(_, _) => SwitchTailsLead(p, sc, e, pos, ctr, c);
    case Call(_, _) => CallTailsLead(p, sc, e, pos, ctr, c);
    case CallDyn(_, _, _) =>
      DynGen(p, sc, e, true, 1, pos, ctr);
      DynMatches(p, sc, e, true, 1, pos, ctr);
      CallAtEnd(p, c, pos, DynOperands(p, sc, e, pos, ctr).code, Instr.CallDyn(Narrow8(|e.args|), true));
    case CallSelf(_) => SelfTailsLead(p, sc, e, pos, ctr, c);
    case _ =>
      PlainIs(p, sc, e, pos, ctr);
      GenMatches(p, sc, e, false, 1, pos, ctr);
      NoTails(p, c, pos, Gen(p, sc, e, false, 1, pos, ctr).code);
  }

  lemma GroupIs(p: Program, sc: Scope, e: Expr, pos: nat, ctr: nat)
    requires e.Group?
    ensures Gen(p, sc, e, true, 1, pos, ctr) == GenGroup(p, sc, e.exprs, true, pos, ctr)
  {}

  lemma PlainIs(p: Program, sc: Scope, e: Expr, pos: nat, ctr: nat)
    requires !e.Group? && !e.Switch? && !e.Call? && !e.CallDyn? && !e.CallSelf?
    ensures Gen(p, sc, e, true, 1, pos, ctr) == Gen(p, sc, e, false, 1, pos, ctr)
  {}

  lemma {:induction false} SelfTailsLead(p: Program, sc: Scope, e: Expr, pos: nat, ctr: nat, c: Code)
    requires e.CallSelf? && Shaped(p, sc, e) && Leads(c, pos + |Gen(p, sc, e, true, 1, pos, ctr).code|)
    ensures TailsLead(c, pos, Gen(p, sc, e, true, 1, pos, ctr).code)
  {
    hide Gen, GenAll, LoadConsts, TailsLead, Leads;
    SelfGen(p, sc, e, true, 1, pos, ctr);
    SelfMatches(p, sc, e, true, 1, pos, ctr);
    var s, loads := GenAll(p, sc, e.args, pos, ctr), LoadConsts(sc.consts, sc.consts.bound);
    var call := Instr.Call(Narrow8(|p.funcs[sc.func.value].kind.consts.Inputs()|), FuncLabel(sc.func.value), true);
    EmitTwice(s, loads, [call]);
    CallAtEnd(p, c, pos, s.Emit(loads).code, call);
  }

  lemma {:induction false} GroupTailsLead(p: Program, sc: Scope, es: seq<Expr>, pos: nat, ctr: nat, c: Code)
    requires AllShaped(p, sc, es) && Embedded(c, pos, GenGroup(p, sc, es, true, pos, ctr))
    requires Leads(c, pos + |GenGroup(p, sc, es, true, pos, ctr).code|)
    ensures TailsLead(c, pos, GenGroup(p, sc, es, true, pos, ctr).code)
    decreases es, 0
  {
    hide Gen, GenGroup, Embedded, AllMatch, TailsLead, Leads;
    GroupEnds(p, sc, es, true, pos, ctr);
    if |es| == 1 {
      GenTailsLead(p, sc, es[0], pos, ctr, c);
    } else if es == [] {
      NothingLeads(c, pos);
    } else {
      var s := ElementSeg(p, sc, es, pos, ctr);
      var rest := GenGroup(p, sc, es[1..], true, pos + |s.code|, s.next);
      GroupGen(p, sc, es, true, pos, ctr);
      EmbeddedCat(c, pos, s, rest);
      ElementMatches(p, sc, es, pos, ctr);
      NoTails(p, c, pos, s.code);
      GroupTailsLead(p, sc, es[1..], pos + |s.code|, s.next, c);
      TailsCat(c, pos, s.code, rest.code);
    }
  }

  lemma {:induction false} CallTailsLead(p: Program, sc: Scope, e: Expr, pos: nat, ctr: nat, c: Code)
    requires e.Call? && Shaped(p, sc, e) && Embedded(c, pos, Gen(p, sc, e, true, 1, pos, ctr))
    requires Leads(c, pos + |Gen(p, sc, e, true, 1, pos, ctr).code|)
    ensures TailsLead(c, pos, Gen(p, sc, e, true, 1, pos, ctr).code)
    decreases e, 0
  {
    var f, args := e.func, e.args;
    if p.funcs[f].kind.MakeUnion? {
      var u, t := p.funcs[f].kind.utype, p.funcs[f].kind.member;
      assert Gen(p, sc, e, true, 1, pos, ctr) == GenUnion(p, sc, u, t, args, true, pos, ctr);
      assert args[0] in args;
      hide Gen, Embedded, AllMatch, Leads, UnionIsNullableStruct, StructIsTagType;
      UnionMatches(p, sc, u, t, args, true, pos, ctr);
      if !UnionIsNullableStruct(p, u) || StructIsTagType(p, t) {
        NoTails(p, c, pos, GenUnion(p, sc, u, t, args, true, pos, ctr).code);
      } else {
        GenTailsLead(p, sc, args[0], pos, ctr, c);
      }
    } else {
      var more, s := CallInstrs(p, f, |args|, true), GenAll(p, sc, args, pos, ctr);
      assert Gen(p, sc, e, true, 1, pos, ctr) == s.Emit(more);
      CallInstrsMatch(p, f, |args|, false);
      assert !p.IsUser(f) ==> more == CallInstrs(p, f, |args|, false);
      assert p.IsUser(f) ==> |more| == 1;
      hide Gen, GenAll, Embedded, AllMatch, CallInstrs;
      AllMatches(p, sc, args, pos, ctr);
      if p.IsUser(f) {
        assert more == [more[0]];
        CallAtEnd(p, c, pos, s.code, more[0]);
      } else {
        MatchCat(p, false, s.code, more);
        NoTails(p, c, pos, s.code + more);
      }
    }
  }

  lemma {:induction false} BranchesTailsLead(
    p: Program, sc: Scope, bs: seq<Expr>, first: nat, end: Label, pos: nat, ctr: nat, c: Code)
    requires AllShaped(p, sc, bs) && bs != [] && Embedded(c, pos, GenBranches(p, sc, bs, true, first, end, pos, ctr))
    requires end in c.labels && Leads(c, c.labels[end])
    requires c.labels[end] == pos + |GenBranches(p, sc, bs, true, first, end, pos, ctr).code|
    ensures TailsLead(c, pos, GenBranches(p, sc, bs, true, first, end, pos, ctr).code)
    decreases bs, 0
  {
    hide Gen, GenBranches, Embedded, TailsLead, Leads;
    BranchesGen(p, sc, bs, true, first, end, pos, ctr);
    if |bs| > 1 {
      var jump := if |bs| > 2 then [Jump(end)] else [];
      var s := BranchSeg(p, sc, bs[0], true, first, pos, ctr).Emit(jump);
      var rest := GenBranches(p, sc, bs[1..], true, first + 1, end, pos + |s.code|, s.next);
      EmbeddedCat(c, pos, s, rest);
      if |bs| == 2 { BranchesGen(p, sc, bs[1..], true, first + 1, end, pos + |s.code|, s.next); }
      BranchTailsLead(p, sc, bs[0], first, end, jump, pos, ctr, c);
      BranchesTailsLead(p, sc, bs[1..], first + 1, end, pos + |s.code|, s.next, c);
      TailsCat(c, pos, s.code, rest.code);
    } else {
      NothingLeads(c, pos);
    }
  }

  lemma NothingLeads(c: Code, pos: nat)
    ensures TailsLead(c, pos, [])
  {}

  /** A branch ends at the end of the switch or with a jump to it. */
  lemma {:induction false} BranchTailsLead(
    p: Program, sc: Scope, b: Expr, first: nat, end: Label, jump: seq<Instr>, pos: nat, ctr: nat, c: Code)
    requires Shaped(p, sc, b) && Embedded(c, pos, BranchSeg(p, sc, b, true, first, pos, ctr).Emit(jump))
    requires end in c.labels && Leads(c, c.labels[end])
    requires jump == [Jump(end)] || (jump == [] && c.labels[end] == pos + |BranchSeg(p, sc, b, true, first, pos, ctr).code|)
    ensures TailsLead(c, pos, BranchSeg(p, sc, b, true, first, pos, ctr).Emit(jump).code)
    decreases b, 2
  {
    hide Gen, Embedded, TailsLead, Leads;
    var s := Gen(p, sc, b, true, 1, pos, ctr);
    BranchPlaced(p, sc, b, first, jump, pos, ctr, c);
    NothingLeads(c, pos + |s.code|);
    if jump != [] {
      NoneMatches(p, false, jump);
      NoTails(p, c, pos + |s.code|, jump);
      assert jump[0] == c.instrs[pos + |s.code| + 0];
      JumpLeads(c, pos + |s.code|, end);
    }
    GenTailsLead(p, sc, b, pos, ctr, c);
    TailsCat(c, pos, s.code, jump);
  }

  lemma BranchPlaced(
    p: Program, sc: Scope, b: Expr, first: nat, jump: seq<Instr>, pos: nat, ctr: nat, c: Code)
    requires Embedded(c, pos, BranchSeg(p, sc, b, true, first, pos, ctr).Emit(jump))
    ensures var s := Gen(p, sc, b, true, 1, pos, ctr);
            && Embedded(c, pos, s) && Has(c, pos + |s.code|, jump) && BranchSeg(p, sc, b, true, first, pos, ctr).code == s.code
  {
    hide Gen, Embedded;
    var start, s := Seg([], [], ctr).Declare(Generated(SwitchIf, first), pos), Gen(p, sc, b, true, 1, pos, ctr);
    assert BranchSeg(p, sc, b, true, first, pos, ctr) == start.Cat(s) && start.Cat(s).code == [] + s.code == s.code;
    EmbeddedEmit(c, pos, start.Cat(s), jump);
    EmbeddedCat(c, pos, start, s);
  }

  lemma {:induction false} SwitchTailsLead(p: Program, sc: Scope, e: Expr, pos: nat, ctr: nat, c: Code)
    requires e.Switch? && Shaped(p, sc, e) && Embedded(c, pos, Gen(p, sc, e, true, 1, pos, ctr))
    requires Leads(c, pos + |Gen(p, sc, e, true, 1, pos, ctr).code|)
    ensures TailsLead(c, pos, Gen(p, sc, e, true, 1, pos, ctr).code)
    decreases e, 0
  {
    hide Gen, GenConds, GenBranches, GenSwitch, Embedded, AllMatch, TailsLead, Leads;
    var n, s := |e.conds|, GenSwitch(p, sc, e, true, pos, ctr);
    SwitchIs(p, sc, e, pos, ctr);
    SwitchParts(p, sc, e, true, pos, ctr);
    SwitchPlaced(s, pos, c);
    CondsMatch(p, sc, e.conds, ctr, pos, ctr + n + 1);
    NoTails(p, c, pos, s.tests.code);
    GenTailsLead(p, sc, e.branches[n], pos + |s.tests.code|, s.tests.next, c);
    BranchesTailsLead(p, sc, e.branches, ctr, s.end, s.at, s.other.next, c);
    SwitchTails(p, s, pos, c);
  }

  lemma SwitchIs(p: Program, sc: Scope, e: Expr, pos: nat, ctr: nat)
    requires e.Switch? && Shaped(p, sc, e)
    ensures |e.branches| == |e.conds| + 1
    ensures Gen(p, sc, e, true, 1, pos, ctr) == GenSwitch(p, sc, e, true, pos, ctr).All()
  {
    hide GenSwitch;
  }

  /** Where the pieces of a switch stand, and that its last branch is followed by a jump to the end. */
  lemma SwitchPlaced(s: SwitchCode, pos: nat, c: Code)
    requires Embedded(c, pos, s.All()) && s.at == pos + |s.tests.code| + |s.other.code| + 1 && s.endPos == s.at + |s.rest.code|
    requires Leads(c, pos + |s.All().code|)
    ensures Embedded(c, pos + |s.tests.code|, s.other) && Embedded(c, s.at, s.rest)
    ensures s.end in c.labels && c.labels[s.end] == s.endPos && Leads(c, s.endPos) && Leads(c, s.at - 1)
  {
    var jump := [Jump(s.end)];
    var front := s.tests.Cat(s.other).Emit(jump);
    hide Leads;
    EmbeddedDeclare(c, pos, front.Cat(s.rest), s.end, s.endPos);
    EmbeddedCat(c, pos, front, s.rest);
    EmbeddedEmit(c, pos, s.tests.Cat(s.other), jump);
    EmbeddedCat(c, pos, s.tests, s.other);
    hide Embedded;
    assert jump[0] == c.instrs[pos + |s.tests.Cat(s.other).code| + 0];
    JumpLeads(c, s.at - 1, s.end);
  }

  lemma SwitchTails(p: Program, s: SwitchCode, pos: nat, c: Code)
    requires s.at == pos + |s.tests.code| + |s.other.code| + 1
    requires TailsLead(c, pos, s.tests.code) && TailsLead(c, pos + |s.tests.code|, s.other.code) && TailsLead(c, s.at, s.rest.code)
    ensures TailsLead(c, pos, s.All().code)
  {
    hide TailsLead;
    var jump := [Jump(s.end)];
    NoneMatches(p, false, jump);
    NoTails(p, c, s.at - 1, jump);
    TailsCat(c, pos, s.tests.code, s.other.code);
    TailsCat(c, pos, s.tests.code + s.other.code, jump);
    TailsCat(c, pos, s.tests.code + s.other.code + jump, s.rest.code);
  }

  /** In the code of every function only jumps stand between a tail call and a return. */
  lemma FuncTailsLead(p: Program, f: FuncId, pos: nat, ctr: nat, c: Code)
    requires FuncShaped(p, f) && Embedded(c, pos, GenFunc(p, f, pos, ctr))
    ensures TailsLead(c, pos, GenFunc(p, f, pos, ctr).code)
  {
    hide Gen, AllMatch, Embedded, TailsLead, ReserveConsts, GenFunc, Leads;
    var kind, sc := p.funcs[f].kind, FuncScope(p, f);
    var reserve := ReserveConsts(kind.consts);
    var body := Gen(p, sc, kind.body, true, 1, pos + |reserve|, ctr);
    ReservesOnly(kind.consts);
    NoneMatches(p, false, reserve);
    FuncIs(p, f, pos, ctr, c);
    NoTails(p, c, pos, reserve);
    GenTailsLead(p, sc, kind.body, pos + |reserve|, ctr, c);
    TailsCat(c, pos, reserve, body.code);
    NoneMatches(p, false, [Ret]);
    NoTails(p, c, pos + |reserve + body.code|, [Ret]);
    TailsCat(c, pos, reserve + body.code, [Ret]);
  }

  lemma FuncIs(p: Program, f: FuncId, pos: nat, ctr: nat, c: Code)
    requires FuncShaped(p, f) && Embedded(c, pos, GenFunc(p, f, pos, ctr))
    ensures var kind := p.funcs[f].kind;
            var reserve := ReserveConsts(kind.consts);
            var body := Gen(p, FuncScope(p, f), kind.body, true, 1, pos + |reserve|, ctr);
            && GenFunc(p, f, pos, ctr).code == reserve + body.code + [Ret] && Embedded(c, pos + |reserve|, body)
            && Leads(c, pos + |reserve| + |body.code|) && Shaped(p, FuncScope(p, f), kind.body)
  {
    var kind := p.funcs[f].kind;
    var reserve := ReserveConsts(kind.consts);
    var start := Seg(reserve, [Decl(FuncLabel(f), pos)], ctr);
    var body := Gen(p, FuncScope(p, f), kind.body, true, 1, pos + |reserve|, ctr);
    assert GenFunc(p, f, pos, ctr) == start.Cat(body).Emit([Ret]) && Shaped(p, FuncScope(p, f), kind.body);
    hide Gen, GenFunc, Embedded, ReserveConsts, Shaped, Has, Leads, FuncScope, FuncShaped;
    EmbeddedEmit(c, pos, start.Cat(body), [Ret]);
    EmbeddedCat(c, pos, start, body);
    RetLeads(c, pos + |start.Cat(body).code|);
  }

  lemma ReservesOnly(consts: ConstTable)
    ensures NoCalls(ReserveConsts(consts))
  {}

  lemma RetLeads(c: Code, at: nat)
    requires Has(c, at, [Ret])
    ensures Leads(c, at)
  {
    assert [Ret][0] == c.instrs[at + 0];
    assert LeadsToRet(c, at, 0);
  }

  // ----- Functions that call themselves in tail position -----

  /** A tail call of function f. */
  predicate Loops(f: FuncId, i: Instr) {
    i.Call? && i.tail && i.target == FuncLabel(f)
  }

  /** For that many steps execution stays in the code of f: it makes no normal call, returns from
      nothing and makes tail calls to f only. */
  ghost predicate StaysIn(c: Code, s: Seg, pos: nat, f: FuncId, st: State, n: nat)
    decreases n
  {
    n > 0 ==>
      && st.Running? && pos <= st.ip < pos + |s.code|
      && (!Transfers(s.code[st.ip - pos]) || Loops(f, s.code[st.ip - pos]))
      && StaysIn(c, s, pos, f, Step(c, st), n - 1)
  }

  /** The frame has not moved and nothing below it has changed. */
  ghost predicate SameBelow(st: State, t: State) {
    st.Running? && t.Running? && t.home == st.home <= |st.stack| && t.home <= |t.stack|
    && t.stack[..t.home] == st.stack[..st.home]
  }

  /** An instruction that stays above the height at which its frame began leaves everything below the
      frame alone. */
  lemma QuietKeepsBelow(c: Code, st: State, i: Instr)
    requires st.Running? && st.home + Pops(i) <= |st.stack| && !Transfers(i) && Exec(c, st, i).Running?
    ensures SameBelow(st, Exec(c, st, i))
  {
    var h := st.home;
    forall n: nat | h + n <= |st.stack| ensures Drop(st.stack, n)[..h] == st.stack[..h] {}
  }

  lemma StepKeepsBelow(
    c: Code, s: Seg, pos: nat, h: nat, out: nat, hs: seq<nat>, marks: Marks, st: State)
    requires Balanced(s, pos, h, out, hs, marks) && Embedded(c, pos, s)
    requires At(s, pos, hs, st) && st.ip < pos + |s.code| && !Transfers(s.code[st.ip - pos]) && Step(c, st).Running?
    ensures SameBelow(st, Step(c, st))
  {
    var k := st.ip - pos;
    assert c.instrs[pos..pos + |s.code|][k] == s.code[k];
    assert StepOk(s.code[k], hs[k], hs[k + 1], marks, h);
    hide Exec, Embedded, Flow, Marked;
    QuietKeepsBelow(c, st, s.code[k]);
  }

  /** A tail call of the function itself starts it over in the same frame. */
  lemma LoopKeepsFrame(p: Program, f: FuncId, c: Code, s: Seg, pos: nat, hs: seq<nat>, st: State)
    requires p.IsUser(f) && Embedded(c, pos, s) && AllMatch(p, true, s.code) && FuncLabel(f) in c.labels && c.labels[FuncLabel(f)] == pos
    requires At(s, pos, hs, st) && hs[0] == |p.funcs[f].kind.consts.Inputs()|
    requires st.ip < pos + |s.code| && Loops(f, s.code[st.ip - pos]) && Step(c, st).Running?
    ensures SameBelow(st, Step(c, st)) && At(s, pos, hs, Step(c, st))
  {
    var i := s.code[st.ip - pos];
    assert c.instrs[pos..pos + |s.code|][st.ip - pos] == i;
    assert i in s.code && Matches(p, true, i);
    TailCallKeepsFrame(c, st, i);
  }

  /** However often a function calls itself in tail position, it keeps running in one frame: the frame
      does not move, nothing below it changes, and its height is one of the heights known beforehand. */
  lemma {:induction false} LoopsInOneFrame(
    p: Program, f: FuncId, pos: nat, ctr: nat, c: Code, hs: seq<nat>, marks: Marks, st: State, n: nat)
    requires FuncShaped(p, f) && Embedded(c, pos, GenFunc(p, f, pos, ctr))
    requires Balanced(GenFunc(p, f, pos, ctr), pos, |p.funcs[f].kind.consts.Inputs()|, |p.funcs[f].kind.consts.All()|, hs, marks)
    requires Closed(GenFunc(p, f, pos, ctr))
    requires At(GenFunc(p, f, pos, ctr), pos, hs, st) && StaysIn(c, GenFunc(p, f, pos, ctr), pos, f, st, n)
    ensures var t := Run(c, st, n);
            t.Running? ==> SameBelow(st, t) && At(GenFunc(p, f, pos, ctr), pos, hs, t)
    decreases n
  {
    var s := GenFunc(p, f, pos, ctr);
    var consts := p.funcs[f].kind.consts;
    if n == 0 { return; }
    var t := Step(c, st);
    EntryIsAt(p, f, pos, ctr, c);
    FuncMatches(p, f, pos, ctr);
    assert hs[0] == |consts.Inputs()|;
    hide Balanced, Closed, Embedded, GenFunc, AllMatch, Step, FuncShaped;
    if t.Running? {
      if Loops(f, s.code[st.ip - pos]) {
        LoopKeepsFrame(p, f, c, s, pos, hs, st);
      } else {
        StepKeepsBelow(c, s, pos, |consts.Inputs()|, |consts.All()|, hs, marks, st);
        StepKeepsHeight(c, s, pos, |consts.Inputs()|, |consts.All()|, hs, marks, st);
      }
      LoopsInOneFrame(p, f, pos, ctr, c, hs, marks, t, n - 1);
    } else {
      Stopped(c, t, n - 1);
    }
  }

  lemma EntryIsAt(p: Program, f: FuncId, pos: nat, ctr: nat, c: Code)
    requires p.IsUser(f) && Embedded(c, pos, GenFunc(p, f, pos, ctr))
    ensures FuncLabel(f) in c.labels && c.labels[FuncLabel(f)] == pos
  {
    hide Gen;
    assert GenFunc(p, f, pos, ctr).decls[0] == Decl(FuncLabel(f), pos);
  }

  // ----- A tail call against a normal call -----

  /** Where only jumps lead from a call to a return, calling normally and calling in tail position end
      in the same state of the caller's caller, but for the two words returned; both represent
      the value of the call. */
  lemma TailCallIsCall(
    l: Place, at: nat, env': Env, w': World, stk': seq<Word>, fuel: nat, f: FuncId, vals: seq<Value>, ws: seq<Word>, k: nat)
    returns (x: Word, y: Word)
    requires l.Valid() && Computes(l, false, at, env', w', stk', ws) && RepAll(l.img, ws, vals)
    requires l.img.p.IsUser(f) && FuncLabel(f) in l.img.code.labels && Invoke(l.img.p, fuel, f, vals, w').Ok?
    requires HasCaller(l.stk, l.home) && LeadsToRet(l.img.code, at + 1, k)
    ensures var inv, tgt, s := Invoke(l.img.p, fuel, f, vals, w'), l.img.code.labels[FuncLabel(f)], Running(at, stk' + ws, l.home, w');
            && Reaches(l.img.code, Enter(s, |ws|, tgt, true), Returned(l.stk, l.home, x, inv.world))
            && Reaches(l.img.code, Enter(s, |ws|, tgt, false), Returned(l.stk, l.home, y, inv.world))
            && Rep(l.img.p, l.img.code.labels, x, inv.val) && Rep(l.img.p, l.img.code.labels, y, inv.val)
            && (inv.val.VInt? ==> x == y)
  {
    var c, tgt, w2 := l.img.code, l.img.code.labels[FuncLabel(f)], Invoke(l.img.p, fuel, f, vals, w').world;
    FrameReturned(l.stk, stk', l.home, |l.sc.consts.All()|, WNull, w2);
    hide Good, Invoke, RepEnv, Returned, Enter, Reaches, RepAll;
    var stk2 := Correctness.ReuseFrame(l, stk', ws, at, w', tgt);
    x := Correctness.CorrectFunc(l.img, fuel, f, vals, stk2, l.home, w');
    Correctness.SameReturn(l.stk, stk2, l.home, x, w2);
    var home3, stk3 := Correctness.PushFrame(l, stk', ws, at, w', tgt);
    y := Correctness.CorrectFunc(l.img, fuel, f, vals, stk3, home3, w');
    Correctness.ReturnPushed(stk', ws, stk3, home3, at + 1, l.home, y, w2);
    FrameReturned(l.stk, stk', l.home, |l.sc.consts.All()|, y, w2);
    FollowToRet(c, Running(tgt, stk3, home3, w'), at + 1, stk', l.home, y, w2, k);
  }
}
