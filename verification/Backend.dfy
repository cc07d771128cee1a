/** The code generator as the compiler runs it: visitor methods that append to an assembler. Every
    method is proved to emit exactly the code that the functions of CodeGen describe. */
module Backend {
  import opened Lang
  import opened Machine
  import opened CodeGen
  import opened Labels
  import opened Assembling

  /** What one step of a visitor did: it appended s. */
  twostate predicate Appended(asmb: Assembler, s: Seg)
    reads asmb
  {
    && asmb.State() == old(asmb.State()).After(s)
    && |asmb.instrs| == old(|asmb.instrs|) + |s.code| && asmb.counter == s.next
  }

  class GenExpr {
    const p: Program
    const asmb: Assembler
    const sc: Scope
    const tail: bool
    const requestedValues: nat
    var valuesProduced: nat

    constructor (p: Program, asmb: Assembler, sc: Scope, tail: bool, requestedValues: nat)
      ensures this.p == p && this.asmb == asmb && this.sc == sc
      ensures this.tail == tail && this.requestedValues == requestedValues && valuesProduced == 1
    {
      this.p, this.asmb, this.sc := p, asmb, sc;
      this.tail, this.requestedValues, valuesProduced := tail, requestedValues, 1;
    }

    /** The code of e at the current position. */
    ghost function Code(e: Expr, tail: bool, req: nat): Seg
      reads asmb
    {
      Gen(p, sc, e, tail, req, |asmb.instrs|, asmb.counter)
    }

    method Visit(e: Expr)
      requires asmb.Fresh() && valuesProduced == 1
      modifies asmb, this`valuesProduced
      ensures Appended(asmb, old(Code(e, tail, requestedValues)))
      ensures asmb.Fresh() && Grown(old(asmb.labels), old(asmb.counter), asmb.labels)
      ensures old(asmb.counter) <= asmb.counter
      ensures asmb.entry == old(asmb.entry)
      ensures valuesProduced == Produced(e, requestedValues)
      decreases e, 2
    {
      GenLabels(p, sc, e, tail, requestedValues, |asmb.instrs|, asmb.counter);
      FreshAfter(asmb.State(), Code(e, tail, requestedValues));
      hide FreshLabels, Within, Grown, Gen;
      match e
      case Assign(_, _) => VisitAssign(e);
      case Group(_) => VisitGroup(e);
      case Switch(_, _) => VisitSwitch(e);
      case Call(_, _) => VisitCall(e);
      case CallDyn(_, _, _) => VisitCallDyn(e);
      case CallSelf(_) => VisitCallSelf(e);
      case Closure(_, _) => VisitClosure(e);
      case Field(_, _, _) => VisitField(e);
      case UnionCheck(_, _, _) => VisitUnionCheck(e);
      case UnionGet(_, _, _, _) => VisitUnionGet(e);
      case _ => VisitLeaf(e);
    }

    /** Visits a child with a visitor of its own. */
    method GenSubExpr(e: Expr, tail: bool, req: nat) returns (produced: nat)
      requires asmb.Fresh()
      modifies asmb
      ensures Appended(asmb, old(Code(e, tail, req)))
      ensures asmb.Fresh() && Grown(old(asmb.labels), old(asmb.counter), asmb.labels)
      ensures old(asmb.counter) <= asmb.counter
      ensures asmb.entry == old(asmb.entry)
      ensures produced == Produced(e, req)
      decreases e, 3
    {
      hide Gen, FreshLabels, Grown, Declared, Listing.After;
      var g := new GenExpr(p, asmb, sc, tail, req);
      g.Visit(e);
      produced := g.valuesProduced;
    }

    method VisitLeaf(e: Expr)
      requires e.LitBool? || e.LitInt? || e.LitFunc? || e.ConstRef? || e.FailNode?
      modifies asmb
      ensures Appended(asmb, old(Code(e, tail, requestedValues)))
      ensures asmb.entry == old(asmb.entry)
    {
      match e
      case LitBool(b) => asmb.Add(LoadLitInt(if b then 1 else 0));
      case LitInt(i) => asmb.Add(LoadLitInt(i));
      case LitFunc(f) => asmb.Add(LoadLitIp(FuncLabel(f)));
      case ConstRef(id) => asmb.Add(StackLoad(ConstOffset(sc.consts, id)));
      case FailNode => asmb.Add(Instr.Fail);
    }

    method VisitAssign(e: Expr)
      requires e.Assign? && asmb.Fresh() && valuesProduced == 1
      modifies asmb, this`valuesProduced
      ensures Appended(asmb, old(Code(e, tail, requestedValues)))
      ensures asmb.entry == old(asmb.entry) && valuesProduced == Produced(e, requestedValues)
      decreases e, 1
    {
      ghost var start, s := asmb.State(), Code(e.init, false, 1);
      ghost var more := (if requestedValues > 0 then [Dup] else []) + [StackStore(ConstOffset(sc.consts, e.id))];
      AfterEmit(start, s, more);
      assert Code(e, tail, requestedValues) == s.Emit(more);
      hide Gen;
      var _ := GenSubExpr(e.init, false, 1);
      if requestedValues > 0 {
        asmb.Add(Dup);
      } else {
        valuesProduced := 0;
      }
      asmb.Add(StackStore(ConstOffset(sc.consts, e.id)));
      assert asmb.instrs == start.After(s).instrs + more;
    }

    /** Pushes operands from left to right. */
    method GenOperands(es: seq<Expr>)
      requires asmb.Fresh()
      modifies asmb
      ensures Appended(asmb, old(GenAll(p, sc, es, |asmb.instrs|, asmb.counter)))
      ensures asmb.Fresh() && asmb.entry == old(asmb.entry)
      decreases es, 0
    {
      hide FreshLabels, Gen, Declared, Listing.After;
      ghost var start, total := asmb.State(), GenAll(p, sc, es, |asmb.instrs|, asmb.counter);
      ghost var done := Seg([], [], asmb.counter);
      AfterNothing(start, asmb.counter);
      CatNothing(total, asmb.counter);
      assert es[0..] == es;
      for i := 0 to |es|
        invariant asmb.State() == start.After(done) && asmb.Fresh() && asmb.entry == old(asmb.entry)
        invariant |asmb.instrs| == |start.instrs| + |done.code| && asmb.counter == done.next
        invariant total == done.Cat(GenAll(p, sc, es[i..], |asmb.instrs|, asmb.counter))
      {
        ghost var s := Code(es[i], false, 1);
        assert es[i..][0] == es[i] && es[i..][1..] == es[i + 1..];
        CatAssoc(done, s, GenAll(p, sc, es[i + 1..], |asmb.instrs| + |s.code|, s.next));
        AfterCat(start, done, s);
        var _ := GenSubExpr(es[i], false, 1);
        done := done.Cat(s);
      }
      CatNothing(done, done.next);
    }

    method VisitGroup(e: Expr)
      requires e.Group? && asmb.Fresh()
      modifies asmb
      ensures Appended(asmb, old(Code(e, tail, requestedValues)))
      ensures asmb.entry == old(asmb.entry)
      decreases e, 1
    {
      ghost var start, total := asmb.State(), GenGroup(p, sc, e.exprs, tail, |asmb.instrs|, asmb.counter);
      ghost var done := Seg([], [], asmb.counter);
      assert Code(e, tail, requestedValues) == total;
      hide FreshLabels, Gen, Declared, Listing.After;
      AfterNothing(start, asmb.counter);
      CatNothing(total, asmb.counter);
      var n := |e.exprs|;
      assert e.exprs[0..] == e.exprs;
      for i := 0 to n
        invariant asmb.State() == start.After(done) && asmb.Fresh() && asmb.entry == old(asmb.entry)
        invariant |asmb.instrs| == |start.instrs| + |done.code| && asmb.counter == done.next
        invariant total == done.Cat(GenGroup(p, sc, e.exprs[i..], tail, |asmb.instrs|, asmb.counter))
      {
        done := GenElement(e.exprs, i, start, done);
      }
      CatNothing(done, done.next);
    }

    /** Element i of a group, after the elements before it have been appended to `start` as `done`. */
    method GenElement(es: seq<Expr>, i: nat, ghost start: Listing, ghost done: Seg) returns (ghost next: Seg)
      requires asmb.Fresh() && i < |es| && asmb.State() == start.After(done)
      requires |asmb.instrs| == |start.instrs| + |done.code| && asmb.counter == done.next
      modifies asmb
      ensures asmb.Fresh() && asmb.entry == old(asmb.entry) && asmb.State() == start.After(next)
      ensures |asmb.instrs| == |start.instrs| + |next.code| && asmb.counter == next.next
      ensures old(done.Cat(GenGroup(p, sc, es[i..], tail, |asmb.instrs|, asmb.counter)))
           == next.Cat(GenGroup(p, sc, es[i + 1..], tail, |asmb.instrs|, asmb.counter))
      decreases es, 0, 0
    {
      var last := i == |es| - 1;
      ghost var before, s := asmb.State(), Code(es[i], tail && last, if last then 1 else 0);
      ghost var pops := Repeat(Instr.Pop, if last then 0 else Produced(es[i], 0));
      hide Gen, FreshLabels, Declared, Listing.After, GenGroup, Repeat;
      GroupStep(es, i, done);
      AfterCat(start, done, s.Emit(pops));
      AfterEmit(before, s, pops);
      var produced := GenSubExpr(es[i], tail && last, if last then 1 else 0);
      // For all but the last expression the result is ignored.
      if last {
        CatNothing(s, 0);
      } else {
        PopAll(produced);
      }
      next := done.Cat(s.Emit(pops));
    }

    method PopAll(n: nat)
      modifies asmb
      ensures asmb.State() == old(asmb.State()).Emit(Repeat(Instr.Pop, n)) && asmb.entry == old(asmb.entry)
    {
      ghost var start := asmb.State();
      for i := 0 to n
        invariant asmb.State() == start.Emit(Repeat(Instr.Pop, i)) && asmb.entry == old(asmb.entry)
      {
        asmb.Add(Instr.Pop);
        assert Repeat(Instr.Pop, i) + [Instr.Pop] == Repeat(Instr.Pop, i + 1);
        assert asmb.instrs == start.instrs + Repeat(Instr.Pop, i + 1);
      }
    }

    lemma GroupStep(es: seq<Expr>, i: nat, done: Seg)
      requires i < |es|
      ensures var last := i == |es| - 1;
              var s := Code(es[i], tail && last, if last then 1 else 0);
              var s1 := s.Emit(Repeat(Pop, if last then 0 else Produced(es[i], 0)));
              done.Cat(GenGroup(p, sc, es[i..], tail, |asmb.instrs|, asmb.counter))
              == done.Cat(s1).Cat(GenGroup(p, sc, es[i + 1..], tail, |asmb.instrs| + |s1.code|, s1.next))
    {
      hide Gen;
      assert es[i..][0] == es[i] && es[i..][1..] == es[i + 1..];
      var last := i == |es| - 1;
      var s := Code(es[i], tail && last, if last then 1 else 0);
      var s1 := s.Emit(Repeat(Pop, if last then 0 else Produced(es[i], 0)));
      var rest := GenGroup(p, sc, es[i + 1..], tail, |asmb.instrs| + |s1.code|, s1.next);
      CatAssoc(done, s1, rest);
      CatNothing(s, s.next);
    }

    method VisitSwitch(e: Expr)
      requires e.Switch? && asmb.Fresh()
      modifies asmb
      ensures Appended(asmb, old(Code(e, tail, requestedValues)))
      ensures asmb.entry == old(asmb.entry)
      decreases e, 1
    {
      AfterNothing(asmb.State(), asmb.counter);
      if |e.branches| == |e.conds| + 1 {
        EmitSwitch(e);
      }
    }

    method EmitSwitch(e: Expr)
      requires e.Switch? && |e.branches| == |e.conds| + 1 && asmb.Fresh()
      modifies asmb
      ensures Appended(asmb, old(Code(e, tail, requestedValues)))
      ensures asmb.entry == old(asmb.entry)
      decreases e, 0
    {
      hide Gen, GenConds, GenBranches, Declared, Listing.After, FreshLabels, IfLabels, Reserved, Grown;
      var conds, branches := e.conds, e.branches;
      ghost var start, n := asmb.State(), |e.conds|;
      ghost var g := SwitchHere(e);
      NoneReserved(asmb.labels, asmb.counter, n + 1);

      // Labels for the branches and for the end.
      var condBranchLabels := GenIfLabels(|conds|);
      var endLabel := asmb.GenerateLabel(SwitchEnd);
      SwitchAssembled(start, g, start.counter + n + 1);

      GenTests(conds, condBranchLabels, start.counter);

      // All conditions are false.
      ghost var mid := asmb.State();
      var _ := GenSubExpr(branches[|branches| - 1], tail, 1);
      StillReserved(mid.labels, mid.counter, asmb.labels, start.counter, n + 1);
      asmb.Add(Jump(endLabel));

      GenIfBranches(branches, condBranchLabels, endLabel, start.counter);
      NotDeclared(asmb.labels, endLabel);
      asmb.DeclareLabel(endLabel);
    }

    lemma SwitchHere(e: Expr) returns (g: SwitchCode)
      requires e.Switch? && |e.branches| == |e.conds| + 1
      ensures Code(e, tail, requestedValues) == g.All()
      ensures var n, ctr, pos := |e.conds|, asmb.counter, |asmb.instrs|;
              && g.end == Generated(SwitchEnd, ctr + n)
              && g.tests == GenConds(p, sc, e.conds, ctr, pos, ctr + n + 1)
              && g.other == Gen(p, sc, e.branches[n], tail, 1, pos + |g.tests.code|, g.tests.next)
              && g.at == pos + |g.tests.code| + |g.other.code| + 1
              && g.rest == GenBranches(p, sc, e.branches, tail, ctr, g.end, g.at, g.other.next)
              && g.endPos == g.at + |g.rest.code|
    {
      g := GenSwitch(p, sc, e, tail, |asmb.instrs|, asmb.counter);
    }

    method GenIfLabels(n: nat) returns (labels: seq<Label>)
      modifies asmb`counter
      ensures asmb.State() == old(asmb.State()).(counter := old(asmb.counter) + n)
      ensures labels == IfLabels(old(asmb.counter), n)
    {
      ghost var start := asmb.State();
      labels := [];
      for i := 0 to n
        invariant asmb.State() == start.(counter := start.counter + i)
        invariant labels == IfLabels(start.counter, i)
      {
        var l := asmb.GenerateLabel(SwitchIf);
        labels := labels + [l];
      }
    }

    /** Tests the conditions in order, jumping to a condition's label when it holds. */
    method GenTests(conds: seq<Expr>, labels: seq<Label>, ghost first: nat)
      requires asmb.Fresh() && labels == IfLabels(first, |conds|)
      requires Reserved(asmb.labels, first, |conds| + 1) && first + |conds| < asmb.counter
      modifies asmb
      ensures Appended(asmb, old(GenConds(p, sc, conds, first, |asmb.instrs|, asmb.counter)))
      ensures asmb.Fresh() && asmb.entry == old(asmb.entry) && old(asmb.counter) <= asmb.counter
      ensures Reserved(asmb.labels, first, |conds| + 1)
      decreases conds, 0, 1
    {
      ghost var start, total := asmb.State(), GenConds(p, sc, conds, first, |asmb.instrs|, asmb.counter);
      ghost var done := Seg([], [], asmb.counter);
      hide Gen, FreshLabels, Grown, Reserved, Declared, Listing.After;
      AfterNothing(start, asmb.counter);
      CatNothing(total, asmb.counter);
      assert conds[0..] == conds;
      for i := 0 to |conds|
        invariant asmb.State() == start.After(done) && asmb.Fresh() && asmb.entry == old(asmb.entry)
        invariant Reserved(asmb.labels, first, |conds| + 1) && start.counter <= asmb.counter
        invariant |asmb.instrs| == |start.instrs| + |done.code| && asmb.counter == done.next
        invariant total == done.Cat(GenConds(p, sc, conds[i..], first + i, |asmb.instrs|, asmb.counter))
      {
        done := GenTest(conds, i, labels[i], first, start, done);
      }
      CatNothing(done, done.next);
    }

    /** Test i, after the tests before it have been appended to `start` as `done`. */
    method GenTest(
      conds: seq<Expr>, i: nat, l: Label, ghost first: nat, ghost start: Listing, ghost done: Seg)
      returns (ghost next: Seg)
      requires asmb.Fresh() && i < |conds| && l == Generated(SwitchIf, first + i)
      requires Reserved(asmb.labels, first, |conds| + 1) && first + |conds| < asmb.counter
      requires asmb.State() == start.After(done)
      requires |asmb.instrs| == |start.instrs| + |done.code| && asmb.counter == done.next
      modifies asmb
      ensures asmb.Fresh() && asmb.entry == old(asmb.entry) && old(asmb.counter) <= asmb.counter
      ensures Reserved(asmb.labels, first, |conds| + 1)
      ensures asmb.State() == start.After(next)
      ensures |asmb.instrs| == |start.instrs| + |next.code| && asmb.counter == next.next
      ensures old(done.Cat(GenConds(p, sc, conds[i..], first + i, |asmb.instrs|, asmb.counter)))
           == next.Cat(GenConds(p, sc, conds[i + 1..], first + i + 1, |asmb.instrs|, asmb.counter))
      decreases conds, 0, 0
    {
      hide Gen, FreshLabels, Grown, Reserved, Declared, Listing.After;
      ghost var mid, s, jump := asmb.State(), Code(conds[i], false, 1), [JumpIf(l)];
      assert conds[i..][0] == conds[i] && conds[i..][1..] == conds[i + 1..];
      CatAssoc(done, s.Emit(jump), GenConds(p, sc, conds[i + 1..], first + i + 1, |asmb.instrs| + |s.code| + 1, s.next));
      AfterCat(start, done, s.Emit(jump));
      AfterEmit(mid, s, jump);
      var _ := GenSubExpr(conds[i], false, 1);
      StillReserved(mid.labels, mid.counter, asmb.labels, first, |conds| + 1);
      asmb.Add(JumpIf(l));
      next := done.Cat(s.Emit(jump));
    }

    /** The branches of the conditions, each at its label; all but the last jump to the end. */
    method GenIfBranches(branches: seq<Expr>, labels: seq<Label>, end: Label, ghost first: nat)
      requires asmb.Fresh() && |branches| > 0 && labels == IfLabels(first, |branches| - 1)
      requires Reserved(asmb.labels, first, |branches|) && first + |branches| <= asmb.counter
      modifies asmb
      ensures Appended(asmb, old(GenBranches(p, sc, branches, tail, first, end, |asmb.instrs|, asmb.counter)))
      ensures asmb.entry == old(asmb.entry)
      ensures Reserved(asmb.labels, first + |branches| - 1, 1)
      decreases branches, 0, 1
    {
      ghost var start, n := asmb.State(), |branches| - 1;
      ghost var total := GenBranches(p, sc, branches, tail, first, end, |asmb.instrs|, asmb.counter);
      ghost var done := Seg([], [], asmb.counter);
      AfterNothing(start, asmb.counter);
      CatNothing(total, asmb.counter);
      assert branches[0..] == branches;
      for i := 0 to |branches| - 1
        invariant asmb.State() == start.After(done) && asmb.Fresh() && asmb.entry == old(asmb.entry)
        invariant Reserved(asmb.labels, first + i, n - i + 1) && start.counter <= asmb.counter
        invariant |asmb.instrs| == |start.instrs| + |done.code| && asmb.counter == done.next
        invariant total == done.Cat(GenBranches(p, sc, branches[i..], tail, first + i, end, |asmb.instrs|, asmb.counter))
      {
        done := GenIfBranch(branches, i, labels[i], end, first, start, done);
      }
      LastBranch(branches[n..], first + n, end);
      CatNothing(done, done.next);
    }

    lemma LastBranch(bs: seq<Expr>, first: nat, end: Label)
      requires |bs| <= 1
      ensures GenBranches(p, sc, bs, tail, first, end, |asmb.instrs|, asmb.counter) == Seg([], [], asmb.counter)
    {}

    /** The code of one branch. */
    ghost function BranchCode(e: Expr, l: Label, end: Label, jump: bool): Seg
      reads asmb
    {
      Seg([], [], asmb.counter).Declare(l, |asmb.instrs|).Cat(Code(e, tail, 1))
      .Emit(if jump then [Jump(end)] else [])
    }

    /** Branch i, after the branches before it have been appended to `start` as `done`. */
    method GenIfBranch(
      branches: seq<Expr>, i: nat, l: Label, end: Label, ghost first: nat, ghost start: Listing, ghost done: Seg)
      returns (ghost next: Seg)
      requires asmb.Fresh() && i < |branches| - 1 && l == Generated(SwitchIf, first + i)
      requires Reserved(asmb.labels, first + i, |branches| - i) && first + |branches| <= asmb.counter
      requires asmb.State() == start.After(done)
      requires |asmb.instrs| == |start.instrs| + |done.code| && asmb.counter == done.next
      modifies asmb
      ensures asmb.Fresh() && asmb.entry == old(asmb.entry) && old(asmb.counter) <= asmb.counter
      ensures Reserved(asmb.labels, first + i + 1, |branches| - i - 1)
      ensures asmb.State() == start.After(next)
      ensures |asmb.instrs| == |start.instrs| + |next.code| && asmb.counter == next.next
      ensures old(done.Cat(GenBranches(p, sc, branches[i..], tail, first + i, end, |asmb.instrs|, asmb.counter)))
           == next.Cat(GenBranches(p, sc, branches[i + 1..], tail, first + i + 1, end, |asmb.instrs|, asmb.counter))
      decreases branches, 0, 0
    {
      var jump := i != |branches| - 2; // No need for a jump for the last.
      ghost var s := BranchCode(branches[i], l, end, jump);
      hide Gen, FreshLabels, Declared, Listing.After, Reserved, GenBranches, BranchCode;
      BranchStep(branches, i, first, end, done);
      AfterCat(start, done, s);
      EmitBranch(branches[i], l, end, jump, first + i, |branches| - i - 1);
      next := done.Cat(s);
    }

    method EmitBranch(e: Expr, l: Label, end: Label, jump: bool, ghost first: nat, ghost n: nat)
      requires asmb.Fresh() && l == Generated(SwitchIf, first)
      requires Reserved(asmb.labels, first, n + 1) && first + n < asmb.counter
      modifies asmb
      ensures Appended(asmb, old(BranchCode(e, l, end, jump)))
      ensures asmb.Fresh() && asmb.entry == old(asmb.entry) && old(asmb.counter) <= asmb.counter
      ensures Reserved(asmb.labels, first + 1, n)
      decreases e, 4
    {
      hide Gen, FreshLabels, Grown, Declared, Listing.After, Reserved;
      ghost var start, b := asmb.State(), Code(e, tail, 1);
      ghost var none := Seg([], [], asmb.counter);
      ghost var name := none.Declare(l, |asmb.instrs|);
      AfterNothing(start, asmb.counter);
      AfterDeclare(start, none, l);
      AfterCat(start, name, b);
      AfterEmit(start, name.Cat(b), [Jump(end)]);
      CatNothing(name.Cat(b), 0);
      DeclareReserved(start.labels, start.counter, first, n + 1, l, |start.instrs|);
      asmb.DeclareLabel(l);
      var _ := GenSubExpr(e, tail, 1);
      StillReserved(start.Declare(l).labels, start.counter, asmb.labels, first + 1, n);
      if jump {
        asmb.Add(Jump(end));
      }
    }

    lemma BranchStep(bs: seq<Expr>, i: nat, first: nat, end: Label, done: Seg)
      requires i < |bs| - 1
      ensures var s := BranchCode(bs[i], Generated(SwitchIf, first + i), end, i != |bs| - 2);
              done.Cat(GenBranches(p, sc, bs[i..], tail, first + i, end, |asmb.instrs|, asmb.counter))
              == done.Cat(s).Cat(GenBranches(p, sc, bs[i + 1..], tail, first + i + 1, end, |asmb.instrs| + |s.code|, s.next))
    {
      hide Gen;
      assert bs[i..][0] == bs[i] && bs[i..][1..] == bs[i + 1..];
      var s := BranchCode(bs[i], Generated(SwitchIf, first + i), end, i != |bs| - 2);
      CatAssoc(done, s, GenBranches(p, sc, bs[i + 1..], tail, first + i + 1, end, |asmb.instrs| + |s.code|, s.next));
    }

    method VisitCall(e: Expr)
      requires e.Call? && asmb.Fresh()
      modifies asmb
      ensures Appended(asmb, old(Code(e, tail, requestedValues)))
      ensures asmb.entry == old(asmb.entry)
      decreases e, 1
    {
      ghost var start := asmb.State();
      AfterNothing(start, asmb.counter);
      if e.func >= |p.funcs| { return; }
      if p.funcs[e.func].kind.MakeUnion? {
        if |e.args| == 1 { MakeUnion(p.funcs[e.func].kind.utype, p.funcs[e.func].kind.member, e.args); }
        return;
      }
      ghost var s := GenAll(p, sc, e.args, |asmb.instrs|, asmb.counter);
      ghost var more := CallInstrs(p, e.func, |e.args|, tail);
      assert Code(e, tail, requestedValues) == s.Emit(more);
      AfterEmit(start, s, more);
      hide Gen, GenAll, Declared;
      GenOperands(e.args);
      AddCall(e.func, |e.args|);
    }

    /** Calls a user function or runs the instructions of a built-in one. */
    method AddCall(f: FuncId, argCount: nat)
      requires f < |p.funcs| && !p.funcs[f].kind.MakeUnion?
      modifies asmb
      ensures asmb.State() == old(asmb.State()).Emit(CallInstrs(p, f, argCount, tail))
      ensures asmb.entry == old(asmb.entry)
    {
      ghost var start := asmb.State();
      match p.funcs[f].kind
      case User(consts, _) => asmb.Add(Instr.Call(Narrow8(|consts.Inputs()|), FuncLabel(f), tail));
      case NoOp =>
        if argCount == 0 {
          asmb.Add(LoadLitInt(0));
        } else {
          PopAll(argCount - 1);
        }
      case Binary(op) => asmb.Add(Arith2(op));
      case Unary(op) => asmb.Add(Arith1(op));
      case MakeStruct(_) =>
        if argCount == 0 {
          asmb.Add(MakeNullStruct);
        } else if argCount > 1 {
          asmb.Add(Instr.MakeStruct(Narrow8(argCount)));
        }
      case Fail => asmb.Add(Instr.Fail);
      case Action(code, arity) => asmb.Add(PCall(code, arity));
    }

    method MakeUnion(u: TypeId, t: TypeId, args: seq<Expr>)
      requires |args| == 1 && asmb.Fresh()
      modifies asmb
      ensures Appended(asmb, old(GenUnion(p, sc, u, t, args, tail, |asmb.instrs|, asmb.counter)))
      ensures asmb.entry == old(asmb.entry)
      decreases args, 0
    {
      ghost var start, none := asmb.State(), Seg([], [], asmb.counter);
      AfterNothing(start, asmb.counter);
      hide Gen, FreshLabels, Grown, Declared, Listing.After, UnionIsNullableStruct, StructIsTagType, UnionDiscriminant;
      if UnionIsNullableStruct(p, u) {
        if StructIsTagType(p, t) {
          ghost var s := none;
          if sc.isAction {
            s := Code(args[0], false, 1).Emit([Instr.Pop]);
            AfterEmit(start, Code(args[0], false, 1), [Instr.Pop]);
            var _ := GenSubExpr(args[0], false, 1);
            asmb.Add(Instr.Pop);
          }
          AfterEmit(start, s, [MakeNullStruct]);
          asmb.Add(MakeNullStruct);
        } else {
          var _ := GenSubExpr(args[0], tail, 1);
        }
        return;
      }
      var load := LoadLitInt(UnionDiscriminant(p, u, t));
      AfterEmit(start, none, [load]);
      asmb.Add(load);
      ghost var s := Code(args[0], false, 1);
      AfterCat(start, none.Emit([load]), s);
      AfterEmit(start, none.Emit([load]).Cat(s), [Instr.MakeStruct(2)]);
      var _ := GenSubExpr(args[0], false, 1);
      asmb.Add(Instr.MakeStruct(2));
    }

    method VisitCallDyn(e: Expr)
      requires e.CallDyn? && asmb.Fresh()
      modifies asmb
      ensures Appended(asmb, old(Code(e, tail, requestedValues)))
      ensures asmb.entry == old(asmb.entry)
      decreases e, 1
    {
      ghost var start, s1 := asmb.State(), GenAll(p, sc, e.args, |asmb.instrs|, asmb.counter);
      ghost var s2 := Gen(p, sc, e.tgt, false, 1, |asmb.instrs| + |s1.code|, s1.next);
      ghost var call := Instr.CallDyn(Narrow8(|e.args|), tail);
      assert Code(e, tail, requestedValues) == s1.Cat(s2).Emit([call]);
      hide Gen, GenAll, Declared;
      AfterCat(start, s1, s2);
      AfterEmit(start, s1.Cat(s2), [call]);
      GenOperands(e.args);
      var _ := GenSubExpr(e.tgt, false, 1);
      asmb.Add(Instr.CallDyn(Narrow8(|e.args|), tail));
    }

    method VisitCallSelf(e: Expr)
      requires e.CallSelf? && asmb.Fresh()
      modifies asmb
      ensures Appended(asmb, old(Code(e, tail, requestedValues)))
      ensures asmb.entry == old(asmb.entry)
      decreases e, 1
    {
      ghost var start := asmb.State();
      AfterNothing(start, asmb.counter);
      if sc.func.None? || !p.IsUser(sc.func.value) { return; }
      var f, bound := sc.func.value, sc.consts.bound;
      var call := Instr.Call(Narrow8(|p.funcs[f].kind.consts.Inputs()|), FuncLabel(f), tail);
      ghost var s := GenAll(p, sc, e.args, |asmb.instrs|, asmb.counter);
      assert Code(e, tail, requestedValues) == s.Emit(LoadConsts(sc.consts, bound) + [call]);
      hide Gen, GenAll, Declared;
      AfterEmit(start, s, LoadConsts(sc.consts, bound) + [call]);
      GenOperands(e.args);
      LoadBound();
      asmb.Add(call);
      assert start.After(s).instrs + LoadConsts(sc.consts, bound) + [call]
          == start.After(s).instrs + (LoadConsts(sc.consts, bound) + [call]);
    }

    /** Loads the bound arguments of the current function again. */
    method LoadBound()
      modifies asmb
      ensures asmb.State() == old(asmb.State()).Emit(LoadConsts(sc.consts, sc.consts.bound))
      ensures asmb.entry == old(asmb.entry)
    {
      var bound := sc.consts.bound;
      ghost var start, loads := asmb.State(), LoadConsts(sc.consts, bound);
      for i := 0 to |bound|
        invariant asmb.State() == start.Emit(loads[..i]) && asmb.entry == old(asmb.entry)
      {
        asmb.Add(StackLoad(ConstOffset(sc.consts, bound[i])));
        assert asmb.instrs == start.instrs + loads[..i + 1];
      }
    }

    method VisitClosure(e: Expr)
      requires e.Closure? && asmb.Fresh()
      modifies asmb
      ensures Appended(asmb, old(Code(e, tail, requestedValues)))
      ensures asmb.entry == old(asmb.entry)
      decreases e, 1
    {
      ghost var start, s := asmb.State(), GenAll(p, sc, e.boundArgs, |asmb.instrs|, asmb.counter);
      var load, make := LoadLitIp(FuncLabel(e.func)), Instr.MakeStruct(Narrow8(|e.boundArgs| + 1));
      assert Code(e, tail, requestedValues) == s.Emit([load, make]);
      hide Gen, GenAll, Declared;
      AfterEmit(start, s, [load, make]);
      GenOperands(e.boundArgs);
      asmb.Add(load);
      asmb.Add(make);
      assert start.After(s).instrs + [load] + [make] == start.After(s).instrs + [load, make];
    }

    method VisitField(e: Expr)
      requires e.Field? && asmb.Fresh()
      modifies asmb
      ensures Appended(asmb, old(Code(e, tail, requestedValues)))
      ensures asmb.entry == old(asmb.entry)
      decreases e, 1
    {
      ghost var start, s := asmb.State(), Code(e.lhs, false, 1);
      assert Code(e, tail, requestedValues) == s.Emit(FieldInstrs(p, e.stype, e.index));
      hide Gen;
      AfterEmit(start, s, FieldInstrs(p, e.stype, e.index));
      var _ := GenSubExpr(e.lhs, false, 1);
      assert asmb.instrs + [] == asmb.instrs;
      if p.IsStruct(e.stype) && |p.types[e.stype].fields| == 1 {
        return;
      }
      asmb.Add(StructLoadField(Narrow8(e.index)));
    }

    /** Replaces a union on top of the stack by whether it is of member type t. */
    method AddUnionTest(u: TypeId, t: TypeId)
      modifies asmb
      ensures asmb.State() == old(asmb.State()).Emit(UnionTest(p, u, t)) && asmb.entry == old(asmb.entry)
    {
      ghost var start := asmb.State();
      if UnionIsNullableStruct(p, u) {
        asmb.Add(CheckStructNull);
        if !StructIsTagType(p, t) {
          asmb.Add(Arith1(CheckIntZero));
        }
      } else {
        asmb.Add(StructLoadField(0));
        asmb.Add(LoadLitInt(UnionDiscriminant(p, u, t)));
        asmb.Add(Arith2(CheckEqInt));
      }
      assert asmb.instrs == start.instrs + UnionTest(p, u, t);
    }

    method VisitUnionCheck(e: Expr)
      requires e.UnionCheck? && asmb.Fresh()
      modifies asmb
      ensures Appended(asmb, old(Code(e, tail, requestedValues)))
      ensures asmb.entry == old(asmb.entry)
      decreases e, 1
    {
      ghost var start, s := asmb.State(), Code(e.lhs, false, 1);
      assert Code(e, tail, requestedValues) == s.Emit(UnionTest(p, e.utype, e.target));
      hide Gen;
      AfterEmit(start, s, UnionTest(p, e.utype, e.target));
      var _ := GenSubExpr(e.lhs, false, 1);
      AddUnionTest(e.utype, e.target);
    }

    method VisitUnionGet(e: Expr)
      requires e.UnionGet? && asmb.Fresh()
      modifies asmb
      ensures Appended(asmb, old(Code(e, tail, requestedValues)))
      ensures asmb.entry == old(asmb.entry)
      decreases e, 1
    {
      ghost var start, s := asmb.State(), Code(e.lhs, false, 1);
      var u, t, slot := e.utype, e.target, ConstOffset(sc.consts, e.id);
      ghost var nullable := UnionIsNullableStruct(p, u);
      assert nullable ==> Code(e, tail, requestedValues) == s.Emit(StoreNonTag(t, slot) + UnionTest(p, u, t));
      assert !nullable ==>
          Code(e, tail, requestedValues) == GetMember(s, UnionTest(p, u, t), slot, |start.instrs| + |s.code|);
      hide Gen, UnionTest, Declared, Listing.After, FreshLabels;
      var _ := GenSubExpr(e.lhs, false, 1);
      if UnionIsNullableStruct(p, u) {
        AfterEmit(start, s, StoreNonTag(t, slot) + UnionTest(p, u, t));
        GetNullable(u, t, slot);
      } else {
        GetOrdinary(u, t, slot, start, s);
      }
    }

    ghost function StoreNonTag(t: TypeId, slot: nat): seq<Instr> {
      if StructIsTagType(p, t) then [] else [Dup, StackStore(slot)]
    }

    method GetNullable(u: TypeId, t: TypeId, slot: nat)
      modifies asmb
      ensures asmb.State() == old(asmb.State()).Emit(StoreNonTag(t, slot) + UnionTest(p, u, t))
      ensures asmb.entry == old(asmb.entry)
    {
      hide UnionTest;
      ghost var start := asmb.State();
      if !StructIsTagType(p, t) {
        asmb.Add(Dup);
        asmb.Add(StackStore(slot));
      }
      AddUnionTest(u, t);
      assert asmb.instrs == start.instrs + (StoreNonTag(t, slot) + UnionTest(p, u, t));
    }

    /** Code to get a member of a union that is stored with its discriminant. */
    method GetOrdinary(u: TypeId, t: TypeId, slot: nat, ghost start: Listing, ghost s: Seg)
      requires asmb.Fresh() && asmb.State() == start.After(s) && asmb.counter == s.next
      modifies asmb
      ensures asmb.State() == start.After(GetMember(s, UnionTest(p, u, t), slot, |start.instrs| + |s.code|))
      ensures asmb.entry == old(asmb.entry)
    {
      hide UnionTest, Listing.After, Declared, GetMember;
      ghost var mid, test := asmb.State(), UnionTest(p, u, t);
      asmb.Add(Dup);
      var typeEqLabel := asmb.GenerateLabel(UnionTypeEqual);
      var endLabel := asmb.GenerateLabel(UnionGetEnd);
      AddUnionTest(u, t);
      asmb.Add(JumpIf(typeEqLabel));
      asmb.Add(Instr.Pop);
      asmb.Add(LoadLitInt(0));
      asmb.Add(Jump(endLabel));
      ghost var arm := asmb.State();
      assert arm.instrs == mid.instrs + [Dup] + test + [JumpIf(typeEqLabel), Pop, LoadLitInt(0), Jump(endLabel)];
      asmb.DeclareLabel(typeEqLabel);
      asmb.Add(StructLoadField(1));
      asmb.Add(StackStore(slot));
      asmb.Add(LoadLitInt(1));
      asmb.DeclareLabel(endLabel);
      assert asmb.instrs == arm.instrs + [StructLoadField(1), StackStore(slot), LoadLitInt(1)];
      MemberAssembled(start, s, test, slot, mid, arm, asmb.State());
    }
  }

  lemma MemberAssembled(
    l: Listing, s: Seg, test: seq<Instr>, slot: nat, mid: Listing, arm: Listing, end: Listing)
    requires mid == l.After(s)
    requires var eq, en := Generated(UnionTypeEqual, s.next), Generated(UnionGetEnd, s.next + 1);
             && arm.instrs == mid.instrs + [Dup] + test + [JumpIf(eq), Pop, LoadLitInt(0), Jump(en)]
             && end.instrs == arm.instrs + [StructLoadField(1), StackStore(slot), LoadLitInt(1)]
             && end.labels == mid.labels[eq := |arm.instrs|][en := |end.instrs|] && end.counter == s.next + 2
    ensures end == l.After(GetMember(s, test, slot, |l.instrs| + |s.code|))
  {
    var eq, en := Generated(UnionTypeEqual, s.next), Generated(UnionGetEnd, s.next + 1);
    var n := |l.instrs| + |s.code|;
    var d1, d2 := Decl(eq, n + |test| + 5), Decl(en, n + |test| + 8);
    DeclaredCat(l.labels, s.decls, [d1]);
    DeclaredCat(l.labels, s.decls + [d1], [d2]);
    assert end.instrs == l.instrs + (s.code + ([Dup] + test + GetArms(eq, en, slot)));
  }

  /** A switch is its pieces, one after the other. */
  lemma SwitchAssembled(l: Listing, g: SwitchCode, ctr: nat)
    requires g.endPos == |l.instrs| + |g.tests.code| + |g.other.code| + 1 + |g.rest.code|
    ensures l.(counter := ctr).After(g.tests).After(g.other).Emit([Jump(g.end)]).After(g.rest).Declare(g.end)
         == l.After(g.All())
  {
    hide Declared;
    var a := g.tests.Cat(g.other);
    AfterNothing(l, ctr);
    CatNothing(g.tests, ctr);
    AfterCat(l, Seg([], [], ctr), g.tests);
    AfterCat(l, g.tests, g.other);
    AfterEmit(l, a, [Jump(g.end)]);
    AfterCat(l, a.Emit([Jump(g.end)]), g.rest);
    AfterDeclare(l, a.Emit([Jump(g.end)]).Cat(g.rest), g.end);
  }

  /** The labels of n conditions, numbered from `first`. */
  function IfLabels(first: nat, n: nat): (r: seq<Label>)
    ensures |r| == n && forall i :: 0 <= i < n ==> r[i] == Generated(SwitchIf, first + i)
  {
    seq(n, i requires 0 <= i => Generated(SwitchIf, first + i))
  }

  /** None of these n numbers has been used in a declaration. */
  ghost predicate Reserved(labels: map<Label, nat>, first: nat, n: nat) {
    forall l :: l in labels && l.Generated? ==> !(first <= l.num < first + n)
  }

  lemma NoneReserved(labels: map<Label, nat>, counter: nat, n: nat)
    requires FreshLabels(labels, counter)
    ensures Reserved(labels, counter, n) && FreshLabels(labels, counter + n)
  {}

  lemma NotDeclared(labels: map<Label, nat>, l: Label)
    requires l.Generated? && Reserved(labels, l.num, 1)
    ensures l !in labels
  {}

  lemma StillReserved(before: map<Label, nat>, counter: nat, after: map<Label, nat>, first: nat, n: nat)
    requires Grown(before, counter, after) && Reserved(before, first, n) && first + n <= counter
    ensures Reserved(after, first, n)
  {}

  lemma DeclareReserved(labels: map<Label, nat>, counter: nat, first: nat, n: nat, l: Label, at: nat)
    requires Reserved(labels, first, n) && n > 0 && l == Generated(SwitchIf, first)
    requires FreshLabels(labels, counter) && first < counter
    ensures Reserved(labels[l := at], first + 1, n - 1) && FreshLabels(labels[l := at], counter) && l !in labels
  {}
}
