/** Every generated label is fresh: the labels declared by a piece of code are pairwise different and
    numbered between the counter before it and the counter after it. */
module Labels {
  import opened Lang
  import opened Machine
  import opened CodeGen

  /** No label number occurs twice. */
  ghost predicate Distinct(decls: seq<Decl>) {
    forall i, j :: 0 <= i < j < |decls| ==> decls[i].name != decls[j].name
  }

  predicate Numbered(d: Decl, lo: nat, hi: nat) {
    d.name.Generated? && lo <= d.name.num < hi
  }

  ghost predicate Within(decls: seq<Decl>, lo: nat, hi: nat) {
    Distinct(decls) && forall d | d in decls :: Numbered(d, lo, hi)
  }

  lemma WithinCat(a: seq<Decl>, b: seq<Decl>, lo: nat, mid: nat, hi: nat)
    requires Within(a, lo, mid) && Within(b, mid, hi) && lo <= mid <= hi
    ensures Within(a + b, lo, hi)
  {
    forall i, j | 0 <= i < j < |a + b| ensures (a + b)[i].name != (a + b)[j].name {
      if i < |a| <= j {
        assert Numbered(a[i], lo, mid) && Numbered(b[j - |a|], mid, hi);
      }
    }
  }

  lemma {:induction false} GenLabels(
    p: Program, sc: Scope, e: Expr, tail: bool, req: nat, pos: nat, ctr: nat)
    ensures var s := Gen(p, sc, e, tail, req, pos, ctr);
            ctr <= s.next && Within(s.decls, ctr, s.next)
    decreases e, 1
  {
    assert Within([], ctr, ctr);
    hide Within, GenAll, GenGroup, GenUnion, GenSwitch, GetMember, CallInstrs, FieldInstrs, UnionTest;
    match e
    case Assign(_, init) => GenLabels(p, sc, init, false, 1, pos, ctr);
    case Group(es) => GenGroupLabels(p, sc, es, tail, pos, ctr);
    case Switch(cs, bs) => if |bs| == |cs| + 1 { GenSwitchLabels(p, sc, e, tail, pos, ctr); }
    case Call(f, args) => GenCallLabels(p, sc, e, tail, req, pos, ctr);
    case CallDyn(_, _, _) => GenDynLabels(p, sc, e, tail, req, pos, ctr);
    case CallSelf(args) => GenAllLabels(p, sc, args, pos, ctr);
    case Closure(_, args) => GenAllLabels(p, sc, args, pos, ctr);
    case Field(_, lhs, _) => GenLabels(p, sc, lhs, false, 1, pos, ctr);
    case UnionCheck(_, lhs, _) => GenLabels(p, sc, lhs, false, 1, pos, ctr);
    case UnionGet(_, _, _, _) => GenGetLabels(p, sc, e, tail, req, pos, ctr);
    case _ =>
  }

  lemma {:induction false} GenCallLabels(
    p: Program, sc: Scope, e: Expr, tail: bool, req: nat, pos: nat, ctr: nat)
    requires e.Call?
    ensures var s := Gen(p, sc, e, tail, req, pos, ctr);
            ctr <= s.next && Within(s.decls, ctr, s.next)
    decreases e, 0
  {
    assert Within([], ctr, ctr);
    hide Within, GenAll, GenUnion, CallInstrs;
    var f, args := e.func, e.args;
    if f < |p.funcs| && p.funcs[f].kind.MakeUnion? && |args| == 1 {
      GenUnionLabels(p, sc, p.funcs[f].kind.utype, p.funcs[f].kind.member, args, tail, pos, ctr);
    } else {
      GenAllLabels(p, sc, args, pos, ctr);
    }
  }

  lemma {:induction false} GenDynLabels(
    p: Program, sc: Scope, e: Expr, tail: bool, req: nat, pos: nat, ctr: nat)
    requires e.CallDyn?
    ensures var s := Gen(p, sc, e, tail, req, pos, ctr);
            ctr <= s.next && Within(s.decls, ctr, s.next)
    decreases e, 0
  {
    var s1 := GenAll(p, sc, e.args, pos, ctr);
    var s2 := Gen(p, sc, e.tgt, false, 1, pos + |s1.code|, s1.next);
    assert Gen(p, sc, e, tail, req, pos, ctr) == s1.Cat(s2).Emit([Instr.CallDyn(Narrow8(|e.args|), tail)]);
    hide Within, Gen, GenAll;
    GenAllLabels(p, sc, e.args, pos, ctr);
    GenLabels(p, sc, e.tgt, false, 1, pos + |s1.code|, s1.next);
    CatWithin(s1, s2, ctr);
  }

  lemma {:induction false} GenGetLabels(
    p: Program, sc: Scope, e: Expr, tail: bool, req: nat, pos: nat, ctr: nat)
    requires e.UnionGet?
    ensures var s := Gen(p, sc, e, tail, req, pos, ctr);
            ctr <= s.next && Within(s.decls, ctr, s.next)
    decreases e, 0
  {
    hide Within, GetMember, UnionTest;
    var s1 := Gen(p, sc, e.lhs, false, 1, pos, ctr);
    GenLabels(p, sc, e.lhs, false, 1, pos, ctr);
    MemberWithin(s1, UnionTest(p, e.utype, e.target), ConstOffset(sc.consts, e.id), pos + |s1.code|, ctr);
  }

  lemma CatWithin(s1: Seg, s2: Seg, ctr: nat)
    requires ctr <= s1.next <= s2.next && Within(s1.decls, ctr, s1.next) && Within(s2.decls, s1.next, s2.next)
    ensures Within(s1.Cat(s2).decls, ctr, s2.next)
  {
    WithinCat(s1.decls, s2.decls, ctr, s1.next, s2.next);
  }

  lemma MemberWithin(s1: Seg, test: seq<Instr>, slot: nat, at: nat, ctr: nat)
    requires ctr <= s1.next && Within(s1.decls, ctr, s1.next)
    ensures Within(GetMember(s1, test, slot, at).decls, ctr, s1.next + 2)
    ensures GetMember(s1, test, slot, at).next == s1.next + 2
  {
    var equal := Decl(Generated(UnionTypeEqual, s1.next), at + |test| + 5);
    var end := Decl(Generated(UnionGetEnd, s1.next + 1), at + |test| + 8);
    WithinCat(s1.decls, [equal, end], ctr, s1.next, s1.next + 2);
    assert s1.decls + [equal] + [end] == s1.decls + [equal, end];
  }

  lemma {:induction false} GenAllLabels(p: Program, sc: Scope, es: seq<Expr>, pos: nat, ctr: nat)
    ensures var s := GenAll(p, sc, es, pos, ctr);
            ctr <= s.next && Within(s.decls, ctr, s.next)
    decreases es, 0
  {
    hide Gen, GenAll, Within;
    AllGen(p, sc, es, pos, ctr);
    NoneWithin(ctr);
    if es != [] {
      var s := Gen(p, sc, es[0], false, 1, pos, ctr);
      var rest := GenAll(p, sc, es[1..], pos + |s.code|, s.next);
      GenLabels(p, sc, es[0], false, 1, pos, ctr);
      GenAllLabels(p, sc, es[1..], pos + |s.code|, s.next);
      WithinCat(s.decls, rest.decls, ctr, s.next, rest.next);
    }
  }

  lemma {:induction false} GenGroupLabels(p: Program, sc: Scope, es: seq<Expr>, tail: bool, pos: nat, ctr: nat)
    ensures var s := GenGroup(p, sc, es, tail, pos, ctr);
            ctr <= s.next && Within(s.decls, ctr, s.next)
    decreases es, 0
  {
    hide Gen, GenGroup, Within, Repeat;
    GroupEnds(p, sc, es, tail, pos, ctr);
    NoneWithin(ctr);
    if |es| == 1 {
      GenLabels(p, sc, es[0], tail, 1, pos, ctr);
    } else if es != [] {
      var s := ElementSeg(p, sc, es, pos, ctr);
      var rest := GenGroup(p, sc, es[1..], tail, pos + |s.code|, s.next);
      GroupGen(p, sc, es, tail, pos, ctr);
      GenLabels(p, sc, es[0], false, 0, pos, ctr);
      GenGroupLabels(p, sc, es[1..], tail, pos + |s.code|, s.next);
      WithinCat(s.decls, rest.decls, ctr, s.next, rest.next);
    }
  }

  lemma NoneWithin(ctr: nat)
    ensures Within([], ctr, ctr)
  {}

  lemma {:induction false} GenUnionLabels(
    p: Program, sc: Scope, u: TypeId, t: TypeId, args: seq<Expr>, tail: bool, pos: nat, ctr: nat)
    requires |args| == 1
    ensures var s := GenUnion(p, sc, u, t, args, tail, pos, ctr);
            ctr <= s.next && Within(s.decls, ctr, s.next)
    decreases args, 0
  {
    GenLabels(p, sc, args[0], tail, 1, pos, ctr);
    GenLabels(p, sc, args[0], false, 1, pos, ctr);
    GenLabels(p, sc, args[0], false, 1, pos + 1, ctr);
    assert [] + Gen(p, sc, args[0], false, 1, pos + 1, ctr).decls == Gen(p, sc, args[0], false, 1, pos + 1, ctr).decls;
  }

  lemma {:induction false} GenCondsLabels(
    p: Program, sc: Scope, cs: seq<Expr>, first: nat, pos: nat, ctr: nat)
    ensures var s := GenConds(p, sc, cs, first, pos, ctr);
            ctr <= s.next && Within(s.decls, ctr, s.next)
    decreases cs, 0
  {
    hide Gen, GenConds, Within;
    CondsGen(p, sc, cs, first, pos, ctr);
    NoneWithin(ctr);
    if cs != [] {
      var s := Gen(p, sc, cs[0], false, 1, pos, ctr).Emit([JumpIf(Generated(SwitchIf, first))]);
      var rest := GenConds(p, sc, cs[1..], first + 1, pos + |s.code|, s.next);
      GenLabels(p, sc, cs[0], false, 1, pos, ctr);
      GenCondsLabels(p, sc, cs[1..], first + 1, pos + |s.code|, s.next);
      WithinCat(s.decls, rest.decls, ctr, s.next, rest.next);
    }
  }

  /** The labels of the branches were reserved before: n numbers from `first`. */
  ghost predicate WithinBranches(decls: seq<Decl>, first: nat, n: nat, lo: nat, hi: nat) {
    Distinct(decls) && forall d | d in decls :: Numbered(d, first, first + n) || Numbered(d, lo, hi)
  }

  lemma {:induction false} GenBranchesLabels(
    p: Program, sc: Scope, bs: seq<Expr>, tail: bool, first: nat, end: Label, pos: nat, ctr: nat)
    requires bs != [] && first + |bs| - 1 <= ctr
    ensures var s := GenBranches(p, sc, bs, tail, first, end, pos, ctr);
            ctr <= s.next && WithinBranches(s.decls, first, |bs| - 1, ctr, s.next)
    decreases bs, 0
  {
    hide Gen, GenBranches, Within, WithinBranches;
    BranchesGen(p, sc, bs, tail, first, end, pos, ctr);
    if |bs| > 1 {
      var b := Gen(p, sc, bs[0], tail, 1, pos, ctr);
      var name := [Decl(Generated(SwitchIf, first), pos)];
      var s := Seg([], [], ctr).Declare(Generated(SwitchIf, first), pos).Cat(b).Emit(if |bs| > 2 then [Jump(end)] else []);
      var rest := GenBranches(p, sc, bs[1..], tail, first + 1, end, pos + |s.code|, s.next);
      GenLabels(p, sc, bs[0], tail, 1, pos, ctr);
      GenBranchesLabels(p, sc, bs[1..], tail, first + 1, end, pos + |s.code|, s.next);
      assert s.decls == name + b.decls;
      BranchDistinct(name[0], b.decls, rest.decls, first, |bs| - 1, ctr, s.next, rest.next);
    } else {
      NoBranches(first, ctr);
    }
  }

  lemma NoBranches(first: nat, ctr: nat)
    ensures WithinBranches([], first, 0, ctr, ctr)
  {}

  lemma BranchDistinct(
    name: Decl, b: seq<Decl>, rest: seq<Decl>, first: nat, n: nat, ctr: nat, mid: nat, hi: nat)
    requires Numbered(name, first, first + 1) && 0 < n && first + n <= ctr <= mid <= hi
    requires Within(b, ctr, mid) && WithinBranches(rest, first + 1, n - 1, mid, hi)
    ensures WithinBranches([name] + b + rest, first, n, ctr, hi)
  {
    forall d, d' | d in [name] && d' in b ensures d.name != d'.name { assert Numbered(d', ctr, mid); }
    forall d, d' | d in [name] + b && d' in rest ensures d.name != d'.name {
      assert d == name || Numbered(d, ctr, mid);
    }
    DistinctCat([name], b);
    DistinctCat([name] + b, rest);
  }

  lemma DistinctCat(a: seq<Decl>, b: seq<Decl>)
    requires Distinct(a) && Distinct(b)
    requires forall d, d' | d in a && d' in b :: d.name != d'.name
    ensures Distinct(a + b)
  {}

  lemma {:induction false} GenSwitchLabels(p: Program, sc: Scope, e: Expr, tail: bool, pos: nat, ctr: nat)
    requires e.Switch? && |e.branches| == |e.conds| + 1
    ensures var s := GenSwitch(p, sc, e, tail, pos, ctr).All();
            ctr <= s.next && Within(s.decls, ctr, s.next)
    decreases e, 0
  {
    var n, s := |e.conds|, GenSwitch(p, sc, e, tail, pos, ctr);
    GenCondsLabels(p, sc, e.conds, ctr, pos, ctr + n + 1);
    GenLabels(p, sc, e.branches[n], tail, 1, pos + |s.tests.code|, s.tests.next);
    GenBranchesLabels(p, sc, e.branches, tail, ctr, s.end, s.at, s.other.next);
    SwitchDistinct(s, n, ctr);
  }

  lemma SwitchDistinct(s: SwitchCode, n: nat, ctr: nat)
    requires s.end == Generated(SwitchEnd, ctr + n)
    requires ctr + n + 1 <= s.tests.next <= s.other.next <= s.rest.next
    requires Within(s.tests.decls, ctr + n + 1, s.tests.next) && Within(s.other.decls, s.tests.next, s.other.next)
    requires WithinBranches(s.rest.decls, ctr, n, s.other.next, s.rest.next)
    ensures Within(s.All().decls, ctr, s.rest.next)
  {
    var a, b, end := s.tests.decls + s.other.decls, s.rest.decls, [Decl(s.end, s.endPos)];
    WithinCat(s.tests.decls, s.other.decls, ctr + n + 1, s.tests.next, s.other.next);
    forall d, d' | d in a && d' in b ensures d.name != d'.name {
      assert Numbered(d, ctr + n + 1, s.other.next);
    }
    DistinctCat(a, b);
    DistinctCat(a + b, end);
  }
}
