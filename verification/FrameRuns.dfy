/** Running generated code: jumps never leave the code of the expression they belong to, the stack always
    has the height that is known statically, and tail calls never deepen it. */
module FrameRuns {
  import opened Lang
  import opened Machine
  import opened CodeGen
  import opened Heights
  import Representation
  import Lazy

  // ----- Jumps stay inside -----

  function Targets(code: seq<Instr>): set<Label> {
    set i | i in code && (i.Jump? || i.JumpIf?) :: i.target
  }

  function Names(decls: seq<Decl>): set<Label> {
    set d | d in decls :: d.name
  }

  predicate NoJumps(code: seq<Instr>) {
    forall i | i in code :: !i.Jump? && !i.JumpIf?
  }

  /** Every jump of s goes to a label declared in s. */
  ghost predicate Closed(s: Seg) {
    Targets(s.code) <= Names(s.decls)
  }

  lemma CatClosed(a: Seg, b: Seg)
    ensures Targets((a.Cat(b)).code) == Targets(a.code) + Targets(b.code)
    ensures Names((a.Cat(b)).decls) == Names(a.decls) + Names(b.decls)
  {
    assert forall i :: i in a.code + b.code <==> i in a.code || i in b.code;
    assert forall d :: d in a.decls + b.decls <==> d in a.decls || d in b.decls;
  }

  lemma EmitClosed(a: Seg, more: seq<Instr>)
    ensures Targets(a.Emit(more).code) == Targets(a.code) + Targets(more)
    ensures NoJumps(more) ==> Targets(more) == {}
  {
    assert forall i :: i in a.code + more <==> i in a.code || i in more;
  }

  lemma DeclareNames(a: Seg, l: Label, at: nat)
    ensures Names(a.Declare(l, at).decls) == Names(a.decls) + {l}
  {
    assert forall d :: d in a.decls + [Decl(l, at)] <==> d in a.decls || d == Decl(l, at);
  }

  lemma NothingClosed(ctr: nat)
    ensures Closed(Seg([], [], ctr)) && Names([]) == {} && Targets([]) == {}
  {}

  lemma JumpTargets(l: Label)
    ensures Targets([Jump(l)]) == {l} && Targets([JumpIf(l)]) == {l}
  {
    assert Jump(l) in [Jump(l)] && JumpIf(l) in [JumpIf(l)];
  }

  lemma LoadsDoNotJump(consts: ConstTable, ids: seq<ConstId>)
    ensures NoJumps(LoadConsts(consts, ids))
  {}

  lemma CallsDoNotJump(p: Program, f: FuncId, n: nat, tail: bool)
    requires f < |p.funcs|
    ensures NoJumps(CallInstrs(p, f, n, tail))
  {}

  lemma {:induction false} GenClosed(p: Program, sc: Scope, e: Expr, tail: bool, req: nat, pos: nat, ctr: nat)
    ensures Closed(Gen(p, sc, e, tail, req, pos, ctr))
    decreases e, 1
  {
    hide GenAll, GenGroup, GenUnion, GenSwitch, GetMember, CallInstrs, FieldInstrs, UnionTest, LoadConsts, Targets, Names;
    NothingClosed(ctr);
    match e
    case Assign(_, init) =>
      GenClosed(p, sc, init, false, 1, pos, ctr);
      var store := (if req > 0 then [Dup] else []) + [StackStore(ConstOffset(sc.consts, e.id))];
      EmitClosed(Gen(p, sc, init, false, 1, pos, ctr), store);
    case Group(es) => GroupClosed(p, sc, es, tail, pos, ctr);
    case Switch(cs, bs) => if |bs| == |cs| + 1 { SwitchClosed(p, sc, e, tail, pos, ctr); }
    case Call(f, args) =>
      if f < |p.funcs| && p.funcs[f].kind.MakeUnion? {
        if |args| == 1 { UnionClosed(p, sc, p.funcs[f].kind.utype, p.funcs[f].kind.member, args, tail, pos, ctr); }
      } else if f < |p.funcs| {
        AllClosed(p, sc, args, pos, ctr);
        CallsDoNotJump(p, f, |args|, tail);
        EmitClosed(GenAll(p, sc, args, pos, ctr), CallInstrs(p, f, |args|, tail));
      }
    case CallDyn(tgt, args, _) => DynClosed(p, sc, e, tail, req, pos, ctr);
    case CallSelf(args) => SelfClosed(p, sc, e, tail, req, pos, ctr);
    case Closure(f, args) =>
      AllClosed(p, sc, args, pos, ctr);
      EmitClosed(GenAll(p, sc, args, pos, ctr), [LoadLitIp(FuncLabel(f)), Instr.MakeStruct(Narrow8(|args| + 1))]);
    case Field(s, lhs, index) =>
      GenClosed(p, sc, lhs, false, 1, pos, ctr);
      FieldClosed(p, Gen(p, sc, lhs, false, 1, pos, ctr), s, index);
    case UnionCheck(u, lhs, t) =>
      GenClosed(p, sc, lhs, false, 1, pos, ctr);
      TestClosed(p, Gen(p, sc, lhs, false, 1, pos, ctr), u, t);
    case UnionGet(_, _, _, _) => GetClosed(p, sc, e, tail, req, pos, ctr);
    case _ =>
      var code := Gen(p, sc, e, tail, req, pos, ctr).code;
      EmitClosed(Seg([], [], ctr), code);
      assert [] + code == code;
  }

  lemma FieldClosed(p: Program, s1: Seg, s: TypeId, index: nat)
    requires Closed(s1)
    ensures Closed(s1.Emit(FieldInstrs(p, s, index)))
  {
    EmitClosed(s1, FieldInstrs(p, s, index));
  }

  lemma TestClosed(p: Program, s1: Seg, u: TypeId, t: TypeId)
    requires Closed(s1)
    ensures Closed(s1.Emit(UnionTest(p, u, t)))
  {
    hide UnionIsNullableStruct;
    EmitClosed(s1, UnionTest(p, u, t));
  }

  lemma {:induction false} AllClosed(p: Program, sc: Scope, es: seq<Expr>, pos: nat, ctr: nat)
    ensures Closed(GenAll(p, sc, es, pos, ctr))
    decreases es, 0
  {
    hide Gen, GenAll, Targets, Names;
    NothingClosed(ctr);
    AllGen(p, sc, es, pos, ctr);
    if es != [] {
      var s := Gen(p, sc, es[0], false, 1, pos, ctr);
      GenClosed(p, sc, es[0], false, 1, pos, ctr);
      AllClosed(p, sc, es[1..], pos + |s.code|, s.next);
      CatClosed(s, GenAll(p, sc, es[1..], pos + |s.code|, s.next));
    }
  }

  lemma {:induction false} GroupClosed(p: Program, sc: Scope, es: seq<Expr>, tail: bool, pos: nat, ctr: nat)
    ensures Closed(GenGroup(p, sc, es, tail, pos, ctr))
    decreases es, 0
  {
    hide Gen, GenGroup, Targets, Names;
    NothingClosed(ctr);
    GroupEnds(p, sc, es, tail, pos, ctr);
    if |es| == 1 {
      GenClosed(p, sc, es[0], tail, 1, pos, ctr);
    } else if es != [] {
      var first, pops := Gen(p, sc, es[0], false, 0, pos, ctr), Repeat(Instr.Pop, Produced(es[0], 0));
      var s := ElementSeg(p, sc, es, pos, ctr);
      GroupGen(p, sc, es, tail, pos, ctr);
      assert NoJumps(pops);
      GenClosed(p, sc, es[0], false, 0, pos, ctr);
      EmitClosed(first, pops);
      GroupClosed(p, sc, es[1..], tail, pos + |s.code|, s.next);
      CatClosed(s, GenGroup(p, sc, es[1..], tail, pos + |s.code|, s.next));
    }
  }

  lemma {:induction false} UnionClosed(
    p: Program, sc: Scope, u: TypeId, t: TypeId, args: seq<Expr>, tail: bool, pos: nat, ctr: nat)
    requires |args| == 1
    ensures Closed(GenUnion(p, sc, u, t, args, tail, pos, ctr))
    decreases args, 0
  {
    hide Gen, UnionIsNullableStruct, StructIsTagType, Targets, Names;
    NothingClosed(ctr);
    var s0 := Seg([], [], ctr);
    GenClosed(p, sc, args[0], false, 1, pos, ctr);
    GenClosed(p, sc, args[0], tail, 1, pos, ctr);
    GenClosed(p, sc, args[0], false, 1, pos + 1, ctr);
    var s := Gen(p, sc, args[0], false, 1, pos, ctr);
    EmitClosed(s, [Instr.Pop]);
    EmitClosed(s.Emit([Instr.Pop]), [MakeNullStruct]);
    EmitClosed(s0, [MakeNullStruct]);
    var load, s2 := [LoadLitInt(UnionDiscriminant(p, u, t))], Gen(p, sc, args[0], false, 1, pos + 1, ctr);
    EmitClosed(s0, load);
    assert [] + load == load;
    CatClosed(Seg(load, [], ctr), s2);
    EmitClosed(Seg(load, [], ctr).Cat(s2), [Instr.MakeStruct(2)]);
  }

  lemma {:induction false} DynClosed(p: Program, sc: Scope, e: Expr, tail: bool, req: nat, pos: nat, ctr: nat)
    requires e.CallDyn?
    ensures Closed(Gen(p, sc, e, tail, req, pos, ctr))
    decreases e, 0
  {
    hide Gen, GenAll, Targets, Names;
    DynGen(p, sc, e, tail, req, pos, ctr);
    var s1 := GenAll(p, sc, e.args, pos, ctr);
    var s2 := Gen(p, sc, e.tgt, false, 1, pos + |s1.code|, s1.next);
    AllClosed(p, sc, e.args, pos, ctr);
    GenClosed(p, sc, e.tgt, false, 1, pos + |s1.code|, s1.next);
    CatClosed(s1, s2);
    EmitClosed(s1.Cat(s2), [Instr.CallDyn(Narrow8(|e.args|), tail)]);
  }

  lemma {:induction false} SelfClosed(p: Program, sc: Scope, e: Expr, tail: bool, req: nat, pos: nat, ctr: nat)
    requires e.CallSelf?
    ensures Closed(Gen(p, sc, e, tail, req, pos, ctr))
    decreases e, 0
  {
    NothingClosed(ctr);
    if sc.func.Some? && p.IsUser(sc.func.value) {
      SelfGen(p, sc, e, tail, req, pos, ctr);
      hide Gen, GenAll, Targets, Names;
      var more := LoadConsts(sc.consts, sc.consts.bound)
        + [Instr.Call(Narrow8(|p.funcs[sc.func.value].kind.consts.Inputs()|), FuncLabel(sc.func.value), tail)];
      LoadsDoNotJump(sc.consts, sc.consts.bound);
      assert NoJumps(more);
      AllClosed(p, sc, e.args, pos, ctr);
      EmitClosed(GenAll(p, sc, e.args, pos, ctr), more);
    }
  }

  lemma {:induction false} GetClosed(p: Program, sc: Scope, e: Expr, tail: bool, req: nat, pos: nat, ctr: nat)
    requires e.UnionGet?
    ensures Closed(Gen(p, sc, e, tail, req, pos, ctr))
    decreases e, 0
  {
    hide Gen, UnionIsNullableStruct, StructIsTagType, UnionTest, GetMember, Targets, Names;
    GetGen(p, sc, e, tail, req, pos, ctr);
    var s1, test, slot := Gen(p, sc, e.lhs, false, 1, pos, ctr), UnionTest(p, e.utype, e.target), ConstOffset(sc.consts, e.id);
    GenClosed(p, sc, e.lhs, false, 1, pos, ctr);
    TestClosed(p, s1, e.utype, e.target);
    EmitClosed(s1, [Dup, StackStore(slot)]);
    TestClosed(p, s1.Emit([Dup, StackStore(slot)]), e.utype, e.target);
    MemberClosed(p, s1, e.utype, e.target, slot, pos + |s1.code|);
  }

  lemma MemberClosed(p: Program, s1: Seg, u: TypeId, t: TypeId, slot: nat, at: nat)
    requires Closed(s1)
    ensures Closed(GetMember(s1, UnionTest(p, u, t), slot, at))
  {
    hide UnionTest, Targets, Names, GetArms;
    var test := UnionTest(p, u, t);
    var equal, end := Generated(UnionTypeEqual, s1.next), Generated(UnionGetEnd, s1.next + 1);
    var arms := GetArms(equal, end, slot);
    TestDoesNotJump(p, u, t);
    ArmTargets(equal, end, slot);
    EmitClosed(s1, [Dup] + test);
    EmitClosed(s1.Emit([Dup] + test), arms);
    EmitTwice(s1, [Dup] + test, arms);
    var s := s1.Emit([Dup] + test + arms);
    DeclareNames(s, equal, at + |test| + 5);
    DeclareNames(s.Declare(equal, at + |test| + 5), end, at + |test| + 8);
  }

  lemma TestDoesNotJump(p: Program, u: TypeId, t: TypeId)
    ensures NoJumps([Dup] + UnionTest(p, u, t))
  {
    hide UnionIsNullableStruct;
  }

  lemma ArmTargets(equal: Label, end: Label, slot: nat)
    ensures Targets(GetArms(equal, end, slot)) == {equal, end}
  {
    var arms := GetArms(equal, end, slot);
    assert arms[0] == JumpIf(equal) && arms[3] == Jump(end) && arms[0] in arms && arms[3] in arms;
    assert forall i | i in arms :: i.Jump? || i.JumpIf? ==> i.target == equal || i.target == end;
  }

  function BranchNames(first: nat, n: nat): set<Label>
    decreases n
  {
    if n == 0 then {} else {Generated(SwitchIf, first)} + BranchNames(first + 1, n - 1)
  }

  /** Every jump of s goes to a label declared in s or to one of these. */
  ghost predicate ClosedBut(s: Seg, others: set<Label>) {
    Targets(s.code) <= Names(s.decls) + others
  }

  lemma CatClosedBut(a: Seg, b: Seg, x: set<Label>, y: set<Label>)
    requires ClosedBut(a, x) && ClosedBut(b, y)
    ensures ClosedBut(a.Cat(b), x + y)
  {
    CatClosed(a, b);
  }

  /** A piece of code that ends with a jump. */
  lemma JumpAfter(s: Seg, jumps: seq<Instr>, l: Label)
    requires Closed(s) && (jumps == [] || jumps == [Jump(l)] || jumps == [JumpIf(l)])
    ensures ClosedBut(s.Emit(jumps), {l}) && s.Emit(jumps).decls == s.decls
  {
    EmitClosed(s, jumps);
    JumpTargets(l);
  }

  lemma {:induction false} CondsClosed(p: Program, sc: Scope, cs: seq<Expr>, first: nat, pos: nat, ctr: nat)
    ensures ClosedBut(GenConds(p, sc, cs, first, pos, ctr), BranchNames(first, |cs|))
    decreases cs, 0
  {
    hide Gen, GenConds, Targets, Names, Closed, ClosedBut;
    CondsGen(p, sc, cs, first, pos, ctr);
    if cs == [] {
      NoneBut(ctr);
    } else {
      var test, jump := Gen(p, sc, cs[0], false, 1, pos, ctr), JumpIf(Generated(SwitchIf, first));
      var s := test.Emit([jump]);
      var rest := GenConds(p, sc, cs[1..], first + 1, pos + |s.code|, s.next);
      GenClosed(p, sc, cs[0], false, 1, pos, ctr);
      JumpAfter(test, [jump], Generated(SwitchIf, first));
      CondsClosed(p, sc, cs[1..], first + 1, pos + |s.code|, s.next);
      CatClosedBut(s, rest, {Generated(SwitchIf, first)}, BranchNames(first + 1, |cs| - 1));
    }
  }

  lemma NoneBut(ctr: nat)
    ensures ClosedBut(Seg([], [], ctr), {})
  {}

  lemma {:induction false} BranchesClosed(
    p: Program, sc: Scope, bs: seq<Expr>, tail: bool, first: nat, end: Label, pos: nat, ctr: nat)
    requires bs != []
    ensures var s := GenBranches(p, sc, bs, tail, first, end, pos, ctr);
            ClosedBut(s, {end}) && BranchNames(first, |bs| - 1) <= Names(s.decls)
    decreases bs, 0
  {
    hide Gen, GenBranches, Targets, Names, Closed, ClosedBut;
    NothingClosed(ctr);
    BranchesGen(p, sc, bs, tail, first, end, pos, ctr);
    if |bs| > 1 {
      var b, jump := Gen(p, sc, bs[0], tail, 1, pos, ctr), if |bs| > 2 then [Jump(end)] else [];
      var s := Seg([], [], ctr).Declare(Generated(SwitchIf, first), pos).Cat(b).Emit(jump);
      var rest := GenBranches(p, sc, bs[1..], tail, first + 1, end, pos + |s.code|, s.next);
      GenClosed(p, sc, bs[0], tail, 1, pos, ctr);
      BranchClosed(b, Generated(SwitchIf, first), pos, ctr, jump, end);
      BranchesClosed(p, sc, bs[1..], tail, first + 1, end, pos + |s.code|, s.next);
      CatClosedBut(s, rest, {end}, {end});
      CatClosed(s, rest);
      assert {end} + {end} == {end};
      NamesOf(s, rest, Generated(SwitchIf, first), first + 1, |bs| - 2);
    } else {
      NoneClosed(ctr, end);
    }
  }

  lemma NamesOf(s: Seg, rest: Seg, l: Label, first: nat, n: nat)
    requires l in Names(s.decls) && BranchNames(first, n) <= Names(rest.decls)
    ensures {l} + BranchNames(first, n) <= Names(s.Cat(rest).decls)
  {
    CatClosed(s, rest);
  }

  lemma NoneClosed(ctr: nat, end: Label)
    ensures ClosedBut(Seg([], [], ctr), {end})
  {}

  /** One branch: its label, its code and perhaps a jump to the end. */
  lemma BranchClosed(b: Seg, name: Label, pos: nat, ctr: nat, jump: seq<Instr>, end: Label)
    requires Closed(b) && (jump == [] || jump == [Jump(end)])
    ensures var s := Seg([], [], ctr).Declare(name, pos).Cat(b).Emit(jump);
            ClosedBut(s, {end}) && name in Names(s.decls)
  {
    hide Targets, Names;
    var start := Seg([], [], ctr).Declare(name, pos);
    NothingClosed(ctr);
    DeclareNames(Seg([], [], ctr), name, pos);
    CatClosed(start, b);
    JumpAfter(start.Cat(b), jump, end);
  }

  lemma {:induction false} SwitchClosed(p: Program, sc: Scope, e: Expr, tail: bool, pos: nat, ctr: nat)
    requires e.Switch? && |e.branches| == |e.conds| + 1
    ensures Closed(GenSwitch(p, sc, e, tail, pos, ctr).All())
    decreases e, 0
  {
    hide Gen, GenConds, GenBranches, GenSwitch, Targets, Names, BranchNames;
    var n, s := |e.conds|, GenSwitch(p, sc, e, tail, pos, ctr);
    SwitchParts(p, sc, e, tail, pos, ctr);
    CondsClosed(p, sc, e.conds, ctr, pos, ctr + n + 1);
    GenClosed(p, sc, e.branches[n], tail, 1, pos + |s.tests.code|, s.tests.next);
    BranchesClosed(p, sc, e.branches, tail, ctr, s.end, s.at, s.other.next);
    CatClosed(s.tests, s.other);
    var a := s.tests.Cat(s.other);
    EmitClosed(a, [Jump(s.end)]);
    JumpTargets(s.end);
    CatClosed(a.Emit([Jump(s.end)]), s.rest);
    DeclareNames(a.Emit([Jump(s.end)]).Cat(s.rest), s.end, s.endPos);
  }

  // ----- Getting a lazy value -----

  /** The heights inside the code of a get, above k words and the lazy object. */
  function GetHeights(k: nat): seq<nat> {
    [k + 1, k + 2, k + 3, k + 3, k + 3, k + 2, k + 3, k + 4, k + 4, k + 4, k + 2, k + 2, k + 2, k + 1, k + 2, k + 2, k + 1, k + 1]
  }

  /** The code of a get replaces the lazy object on top by its value and is balanced, whichever of its
      paths is taken; it jumps inside only. */
  lemma LazyGetBalanced(s1: Seg, pos: nat, h: nat, hs1: seq<nat>, known: Marks) returns (hs: seq<nat>, marks: Marks)
    requires Balanced(s1, pos, h, h + 1, hs1, known) && Closed(s1)
    ensures var get := Lazy.GetSeg(pos + |s1.code|, s1.next);
            Balanced(s1.Cat(get), pos, h, h + 1, hs, marks) && More(known, marks) && Closed(s1.Cat(get))
  {
    hide Pops, Lazy.GetCode, Falls;
    var at, n := pos + |s1.code|, s1.next;
    var notIdle, done := Generated(LazyGetNotIdle, n), Generated(LazyGetReturnResult, n + 1);
    marks := known[notIdle := h + 2][done := h + 1];
    var get := Lazy.GetSeg(at, n);
    GetFlows(h, n, marks);
    GetMarked(at, h, n, marks);
    FlowMore(s1.code, hs1, known, marks, h, h);
    hide Flow, GetHeights, Lazy.GetCode;
    var gets := GetHeights(h);
    FlowCat(s1.code, hs1, get.code, gets, marks, h);
    MarkedMore(s1.decls, pos, hs1, known, marks, gets[1..]);
    MarkedLater(get.decls, pos, gets, marks, hs1, |s1.code|);
    hs := hs1 + gets[1..];
    hide Targets, Names;
    CatClosed(s1, get);
    GetTargets(at, n);
  }

  lemma GetStepOk(h: nat, n: nat, marks: Marks, i: nat)
    requires Generated(LazyGetNotIdle, n) in marks && marks[Generated(LazyGetNotIdle, n)] == h + 2
    requires Generated(LazyGetReturnResult, n + 1) in marks && marks[Generated(LazyGetReturnResult, n + 1)] == h + 1
    requires i < 17
    ensures StepOk(Lazy.GetCode(n)[i], GetHeights(h)[i], GetHeights(h)[i + 1], marks, h)
  {}

  lemma GetFlows(h: nat, n: nat, marks: Marks)
    requires Generated(LazyGetNotIdle, n) in marks && marks[Generated(LazyGetNotIdle, n)] == h + 2
    requires Generated(LazyGetReturnResult, n + 1) in marks && marks[Generated(LazyGetReturnResult, n + 1)] == h + 1
    ensures Flow(Lazy.GetCode(n), GetHeights(h), marks, h)
    ensures |Lazy.GetCode(n)| == 17 && |GetHeights(h)| == 18 && GetHeights(h)[0] == h + 1 && GetHeights(h)[17] == h + 1
  {}

  lemma GetMarked(at: nat, h: nat, n: nat, marks: Marks)
    requires Generated(LazyGetNotIdle, n) in marks && marks[Generated(LazyGetNotIdle, n)] == h + 2
    requires Generated(LazyGetReturnResult, n + 1) in marks && marks[Generated(LazyGetReturnResult, n + 1)] == h + 1
    ensures Marked(Lazy.GetSeg(at, n).decls, at, GetHeights(h), marks)
  {
    var code, hs := Lazy.GetCode(n), GetHeights(h);
    forall i | 0 <= i < 17 ensures StepOk(code[i], hs[i], hs[i + 1], marks, h) {
      GetStepOk(h, n, marks, i);
    }
  }

  lemma GetTargets(at: nat, n: nat)
    ensures Closed(Lazy.GetSeg(at, n))
  {
    var notIdle, done := Generated(LazyGetNotIdle, n), Generated(LazyGetReturnResult, n + 1);
    var decls := Lazy.GetSeg(at, n).decls;
    GetJumps(n);
    assert decls[0].name == notIdle && decls[1].name == done && decls[0] in decls && decls[1] in decls;
    hide Lazy.GetCode;
    assert notIdle in Names(decls) && done in Names(decls);
  }

  lemma GetJumps(n: nat)
    ensures Targets(Lazy.GetCode(n)) <= {Generated(LazyGetNotIdle, n), Generated(LazyGetReturnResult, n + 1)}
  {
    var code := Lazy.GetCode(n);
    forall k | 0 <= k < |code| && (code[k].Jump? || code[k].JumpIf?) ensures k == 4 || k == 13 {}
  }

  // ----- Functions -----

  predicate FuncShaped(p: Program, f: FuncId) {
    p.IsUser(f) && Shaped(p, FuncScope(p, f), p.funcs[f].kind.body)
  }

  /** A function is entered with its inputs in the frame and returns with one word above its slots. */
  lemma FuncBalanced(p: Program, f: FuncId, pos: nat, ctr: nat) returns (hs: seq<nat>, marks: Marks)
    requires FuncShaped(p, f)
    ensures var consts, s := p.funcs[f].kind.consts, GenFunc(p, f, pos, ctr);
            && Balanced(s, pos, |consts.Inputs()|, |consts.All()|, hs, marks) && Closed(s)
            && hs[|s.code| - 1] == |consts.All()| + 1
  {
    hide Gen, Balanced, Closed, ReserveConsts;
    var kind, sc := p.funcs[f].kind, FuncScope(p, f);
    var reserve := ReserveConsts(kind.consts);
    var n, m := |kind.consts.Inputs()|, |kind.consts.All()|;
    var start := Seg(reserve, [Decl(FuncLabel(f), pos)], ctr);
    var body := Gen(p, sc, kind.body, true, 1, pos + |reserve|, ctr);
    var hs1, known := ReserveBalanced(kind.consts, f, pos, ctr);
    var hs2;
    hs2, marks := GenBalanced(p, sc, kind.body, true, 1, pos + |reserve|, ctr, m, known);
    GenClosed(p, sc, kind.body, true, 1, pos + |reserve|, ctr);
    CatOk(start, body, pos, n, m, m + 1, hs1, hs2, known, marks);
    BothClosed(start, body);
    EndsAt(body, pos + |reserve|, m, m + 1, hs2, marks);
    var hs0 := hs1 + hs2[1..];
    EmitOk(start.Cat(body), pos, n, m + 1, m, hs0, marks, Ret);
    EndsAt(start.Cat(body), pos, n, m + 1, hs0, marks);
    hs := hs0 + [m];
  }

  lemma BothClosed(a: Seg, b: Seg)
    requires Closed(a) && Closed(b)
    ensures Closed(a.Cat(b).Emit([Ret]))
  {
    hide Targets, Names;
    CatClosed(a, b);
    EmitClosed(a.Cat(b), [Ret]);
  }

  /** The start of a function: its label, and room for its local constants. */
  lemma ReserveBalanced(consts: ConstTable, f: FuncId, pos: nat, ctr: nat) returns (hs: seq<nat>, known: Marks)
    ensures var n, m := |consts.Inputs()|, |consts.All()|;
            var start := Seg(ReserveConsts(consts), [Decl(FuncLabel(f), pos)], ctr);
            n <= m && Balanced(start, pos, n, m, hs, known) && Closed(start) && Numbered(known, ctr)
  {
    var n, m := |consts.Inputs()|, |consts.All()|;
    assert m == n + |consts.locals|;
    known := map[FuncLabel(f) := n];
    hs := [n] + if ReserveConsts(consts) == [] then [] else [m];
  }

  lemma EndsAt(s: Seg, pos: nat, h: nat, out: nat, hs: seq<nat>, marks: Marks)
    requires Balanced(s, pos, h, out, hs, marks)
    ensures |hs| == |s.code| + 1 && hs[|s.code|] == out
  {}

  // ----- Runs -----

  predicate Transfers(i: Instr) {
    i.Call? || i.CallDyn? || i.Ret?
  }

  /** The state is at an instruction, or the end, of s, and its frame has the height known for it. */
  ghost predicate At(s: Seg, pos: nat, hs: seq<nat>, st: State) {
    st.Running? && pos <= st.ip <= pos + |s.code| && |hs| == |s.code| + 1 && |st.stack| == st.home + hs[st.ip - pos]
  }

  /** One instruction that is no call and no return stays in the same frame and the same piece of code, at
      the height known for where it goes. */
  lemma StepKeepsHeight(
    c: Code, s: Seg, pos: nat, h: nat, out: nat, hs: seq<nat>, marks: Marks, st: State)
    requires Balanced(s, pos, h, out, hs, marks) && Closed(s) && Representation.Embedded(c, pos, s)
    requires At(s, pos, hs, st) && st.ip < pos + |s.code| && !Transfers(s.code[st.ip - pos])
    ensures var t := Step(c, st);
            t.Running? ==> t.home == st.home && At(s, pos, hs, t)
  {
    var k := st.ip - pos;
    var i := s.code[k];
    assert c.instrs[pos..pos + |s.code|][k] == i;
    assert StepOk(i, hs[k], hs[k + 1], marks, h);
    if i.Jump? || i.JumpIf? {
      TargetIsKnown(c, s, pos, h, out, hs, marks, k);
    } else {
      hide Balanced, Closed, Targets, Names, Marked, Flow;
    }
  }

  /** The label of a jump is placed inside, at the height known for it. */
  lemma TargetIsKnown(c: Code, s: Seg, pos: nat, h: nat, out: nat, hs: seq<nat>, marks: Marks, k: nat)
    requires Balanced(s, pos, h, out, hs, marks) && Closed(s) && Representation.Embedded(c, pos, s) && k < |s.code|
    requires s.code[k].Jump? || s.code[k].JumpIf?
    ensures var l := s.code[k].target;
            && l in c.labels && l in marks && pos <= c.labels[l] <= pos + |s.code| && marks[l] == hs[c.labels[l] - pos]
  {
    var i := s.code[k];
    assert i in s.code && i.target in Targets(s.code);
    assert i.target in Names(s.decls);
    var d :| d in s.decls && d.name == i.target;
  }

  /** After that many steps without a call or return. */
  ghost predicate Quiet(c: Code, s: Seg, pos: nat, st: State, n: nat)
    decreases n
  {
    n > 0 ==>
      && st.Running? && pos <= st.ip < pos + |s.code| && !Transfers(s.code[st.ip - pos])
      && Quiet(c, s, pos, Step(c, st), n - 1)
  }

  /** However a run gets to an instruction, it arrives at the one height known for it. */
  lemma {:induction false} RunKeepsHeight(
    c: Code, s: Seg, pos: nat, h: nat, out: nat, hs: seq<nat>, marks: Marks, st: State, n: nat)
    requires Balanced(s, pos, h, out, hs, marks) && Closed(s) && Representation.Embedded(c, pos, s)
    requires At(s, pos, hs, st) && Quiet(c, s, pos, st, n)
    ensures Run(c, st, n).Running? ==> Run(c, st, n).home == st.home && At(s, pos, hs, Run(c, st, n))
    decreases n
  {
    if n > 0 {
      hide Balanced, Closed, Representation.Embedded;
      StepKeepsHeight(c, s, pos, h, out, hs, marks, st);
      if Step(c, st).Running? {
        RunKeepsHeight(c, s, pos, h, out, hs, marks, Step(c, st), n - 1);
      } else {
        Stopped(c, Step(c, st), n - 1);
      }
    }
  }

  lemma {:induction false} Stopped(c: Code, st: State, n: nat)
    requires !st.Running?
    ensures Run(c, st, n) == st
    decreases n
  {
    if n > 0 { Stopped(c, st, n - 1); }
  }

  /** A call leaves its caller at the height known for the instruction after it: below the new frame lie
      the return address, the caller's home and the caller's frame without the arguments. */
  lemma CallLeavesHeight(
    c: Code, s: Seg, pos: nat, h: nat, out: nat, hs: seq<nat>, marks: Marks, st: State, result: Word)
    requires Balanced(s, pos, h, out, hs, marks) && Representation.Embedded(c, pos, s)
    requires At(s, pos, hs, st) && st.ip < pos + |s.code|
    requires s.code[st.ip - pos].Call? && !s.code[st.ip - pos].tail && Step(c, st).Running?
    ensures var t := Step(c, st);
            var back := StepRet(t.(stack := t.stack[..t.home] + [result]));
            && t.home >= 2 && t.home <= |t.stack|
            && back.Running? && back.home == st.home && back.ip == st.ip + 1 && At(s, pos, hs, back)
            && Top(back.stack) == result
  {
    var k := st.ip - pos;
    var i := s.code[k];
    assert c.instrs[pos..pos + |s.code|][k] == i;
    assert StepOk(i, hs[k], hs[k + 1], marks, h);
    var rest := Drop(st.stack, i.argCount);
    var t := Step(c, st);
    assert t.stack[..t.home] == rest + [WIp(st.ip + 1), WHome(st.home)];
    var u := t.stack[..t.home] + [result];
    assert u[t.home - 2] == WIp(st.ip + 1) && u[t.home - 1] == WHome(st.home) && u[..t.home - 2] == rest;
  }

  /** Tail calls reuse the frame: nothing below it changes and it does not move. */
  lemma TailCallKeepsFrame(c: Code, st: State, i: Instr)
    requires st.Running? && st.home <= |st.stack| && Exec(c, st, i).Running?
    requires (i.Call? && i.tail) || (i.CallDyn? && i.tail && |st.stack| > st.home)
    ensures var t := Exec(c, st, i);
            t.home == st.home <= |t.stack| && t.stack[..t.home] == st.stack[..st.home]
    ensures i.Call? ==> |Exec(c, st, i).stack| == st.home + i.argCount
  {
    if i.CallDyn? {
      var s2 := Drop(st.stack, 1);
      assert s2[..st.home] == st.stack[..st.home];
      if Top(st.stack).WStruct? && Top(st.stack).fields != [] {
        var s3 := s2 + Drop(Top(st.stack).fields, 1);
        assert s3[..st.home] == s2[..st.home];
      }
    }
  }
}
