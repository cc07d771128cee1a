/** Generating a whole program: every user function, every execute statement and the entry point. */
module Generator {
  import opened Lang
  import opened Machine
  import opened CodeGen
  import opened Labels
  import opened Assembling
  import opened Backend

  // ----- What is generated -----

  function GenFuncs(p: Program, order: seq<FuncId>, pos: nat, ctr: nat): Seg
    requires forall f | f in order :: p.IsUser(f)
  {
    if order == [] then Seg([], [], ctr)
    else
      var s := GenFunc(p, order[0], pos, ctr);
      s.Cat(GenFuncs(p, order[1..], pos + |s.code|, s.next))
  }

  function GenExecs(p: Program, execs: seq<ExecStmt>, pos: nat, ctr: nat): Seg {
    if execs == [] then Seg([], [], ctr)
    else
      var s := GenExec(p, execs[0], pos, ctr);
      s.Cat(GenExecs(p, execs[1..], pos + |s.code|, s.next))
  }

  function ExecLabels(p: Program, execs: seq<ExecStmt>, pos: nat, ctr: nat): (r: seq<Label>)
    ensures |r| == |execs|
  {
    if execs == [] then []
    else
      var s := GenExec(p, execs[0], pos, ctr);
      [Generated(ExecLabel, ctr)] + ExecLabels(p, execs[1..], pos + |s.code|, s.next)
  }

  function CallAll(labels: seq<Label>): (r: seq<Instr>)
    ensures |r| == |labels| && forall i :: 0 <= i < |labels| ==> r[i] == Instr.Call(0, labels[i], false)
  {
    if labels == [] then [] else [Instr.Call(0, labels[0], false)] + CallAll(labels[1..])
  }

  datatype Output = Output(seg: Seg, entry: Label)

  /** The code of a program whose functions are visited in the given order. A single execute
      statement is the entry point itself; otherwise a block of its own calls them all. */
  function GenProgram(p: Program, order: seq<FuncId>): Output
    requires forall f | f in order :: p.IsUser(f)
  {
    var s1 := GenFuncs(p, order, 0, 0);
    var s2 := GenExecs(p, p.execs, |s1.code|, s1.next);
    var s, labels := s1.Cat(s2), ExecLabels(p, p.execs, |s1.code|, s1.next);
    if |labels| == 1 then Output(s, labels[0])
    else
      var entry := Generated(EntryPoint, s.next);
      Output(s.(next := s.next + 1).Declare(entry, |s.code|).Emit(CallAll(labels) + [Ret]), entry)
  }

  // ----- The generator itself -----

  method ReserveLocals(asmb: Assembler, consts: ConstTable)
    modifies asmb
    ensures asmb.State() == old(asmb.State()).Emit(ReserveConsts(consts)) && asmb.entry == old(asmb.entry)
  {
    if |consts.locals| > 0 {
      asmb.Add(StackAlloc(|consts.locals|));
    } else {
      assert asmb.instrs + [] == asmb.instrs;
    }
  }

  method GenerateFunc(asmb: Assembler, p: Program, f: FuncId) returns (l: Label)
    requires p.IsUser(f) && asmb.Fresh() && FuncLabel(f) !in asmb.labels
    modifies asmb
    ensures Appended(asmb, old(GenFunc(p, f, |asmb.instrs|, asmb.counter)))
    ensures l == FuncLabel(f) && asmb.Fresh() && asmb.entry == old(asmb.entry)
    ensures forall g :: FuncLabel(g) in asmb.labels ==> FuncLabel(g) in old(asmb.labels) || g == f
  {
    hide Gen, Listing.After, Declared;
    var kind := p.funcs[f].kind;
    ghost var start, none := asmb.State(), Seg([], [], asmb.counter);
    ghost var s := none.Declare(FuncLabel(f), |asmb.instrs|).Emit(ReserveConsts(kind.consts));
    ghost var body := Gen(p, FuncScope(p, f), kind.body, true, 1, |asmb.instrs| + |s.code|, asmb.counter);
    Assembled(start, none, FuncLabel(f), ReserveConsts(kind.consts), body);
    l := FuncLabel(f);
    asmb.DeclareLabel(l);
    ReserveLocals(asmb, kind.consts);
    var g := new GenExpr(p, asmb, FuncScope(p, f), true, 1);
    g.Visit(kind.body);
    assert g.valuesProduced == 1;
    asmb.Add(Ret);
  }

  method GenerateExecStmt(asmb: Assembler, p: Program, x: ExecStmt) returns (l: Label)
    requires asmb.Fresh()
    modifies asmb
    ensures Appended(asmb, old(GenExec(p, x, |asmb.instrs|, asmb.counter)))
    ensures l == Generated(ExecLabel, old(asmb.counter)) && asmb.Fresh() && asmb.entry == old(asmb.entry)
  {
    hide Gen, Listing.After, Declared;
    ghost var start, none := asmb.State(), Seg([], [], asmb.counter + 1);
    ghost var s := none.Declare(Generated(ExecLabel, asmb.counter), |asmb.instrs|).Emit(ReserveConsts(x.consts));
    ghost var body := Gen(p, ExecScope(x), x.expr, false, 1, |asmb.instrs| + |s.code|, s.next);
    Assembled(start, none, Generated(ExecLabel, asmb.counter), ReserveConsts(x.consts), body);
    l := asmb.GenerateLabel(ExecLabel);
    asmb.DeclareLabel(l);
    ReserveLocals(asmb, x.consts);
    var g := new GenExpr(p, asmb, ExecScope(x), false, 1);
    g.Visit(x.expr);
    assert g.valuesProduced == 1;
    asmb.Add(Ret);
  }

  /** A function or statement is its label, its reserved locals, its body and a return. */
  lemma Assembled(l: Listing, none: Seg, name: Label, alloc: seq<Instr>, body: Seg)
    requires none == Seg([], [], none.next)
    ensures var s := Seg(alloc, [Decl(name, |l.instrs|)], none.next);
            l.(counter := none.next).Declare(name).Emit(alloc).After(body).Emit([Ret])
            == l.After(s.Cat(body).Emit([Ret]))
  {
    hide Declared;
    var d, s := none.Declare(name, |l.instrs|), Seg(alloc, [Decl(name, |l.instrs|)], none.next);
    assert d.Emit(alloc) == s;
    AfterNothing(l, none.next);
    AfterDeclare(l, none, name);
    AfterEmit(l, d, alloc);
    AfterCat(l, s, body);
    AfterEmit(l, s.Cat(body), [Ret]);
  }

  /** The generator runs with an assembler of its own and hands over what is in it. */
  method Generate(p: Program, order: seq<FuncId>) returns (asmb: Assembler)
    requires forall f | f in order :: p.IsUser(f)
    requires forall i, j :: 0 <= i < j < |order| ==> order[i] != order[j]
    ensures fresh(asmb) && asmb.State() == Listing([], map[], 0).After(GenProgram(p, order).seg)
    ensures asmb.entry == Some(GenProgram(p, order).entry)
  {
    hide GenFuncs, GenExecs, ExecLabels, Listing.After;
    asmb := new Assembler();
    ghost var empty, g := asmb.State(), GenProgram(p, order);
    ghost var s1 := GenFuncs(p, order, 0, 0);
    ghost var s2 := GenExecs(p, p.execs, |s1.code|, s1.next);
    AfterCat(empty, s1, s2);
    GenerateFuncs(asmb, p, order);
    var labels := GenerateExecs(asmb, p);
    if |labels| == 1 {
      asmb.SetEntrypoint(labels[0]);
    } else {
      EntryAssembled(empty, s1.Cat(s2), CallAll(labels));
      GenerateEntry(asmb, labels);
    }
  }

  lemma EntryAssembled(l: Listing, s: Seg, calls: seq<Instr>)
    ensures var entry := Generated(EntryPoint, s.next);
            l.After(s).(counter := s.next + 1).Declare(entry).Emit(calls + [Ret])
            == l.After(s.(next := s.next + 1).Declare(entry, |l.instrs| + |s.code|).Emit(calls + [Ret]))
  {
    var s2, entry := s.(next := s.next + 1), Generated(EntryPoint, s.next);
    AfterDeclare(l, s2, entry);
    AfterEmit(l, s2.Declare(entry, |l.instrs| + |s.code|), calls + [Ret]);
  }

  /** A block that calls all statements in order; its return stops the program. */
  method GenerateEntry(asmb: Assembler, labels: seq<Label>)
    requires asmb.Fresh()
    modifies asmb
    ensures var l := Generated(EntryPoint, old(asmb.counter));
            && asmb.State() == old(asmb.State()).(counter := old(asmb.counter) + 1).Declare(l).Emit(CallAll(labels) + [Ret])
            && asmb.entry == Some(l)
  {
    var entryPointLabel := asmb.GenerateLabel(EntryPoint);
    asmb.SetEntrypoint(entryPointLabel);
    asmb.DeclareLabel(entryPointLabel);
    ghost var start := asmb.State();
    CallInOrder(asmb, labels);
    asmb.Add(Ret);
    assert asmb.instrs == start.instrs + (CallAll(labels) + [Ret]);
  }

  method GenerateFuncs(asmb: Assembler, p: Program, order: seq<FuncId>)
    requires forall f | f in order :: p.IsUser(f)
    requires forall i, j :: 0 <= i < j < |order| ==> order[i] != order[j]
    requires asmb.Fresh() && forall f :: FuncLabel(f) !in asmb.labels
    modifies asmb
    ensures Appended(asmb, old(GenFuncs(p, order, |asmb.instrs|, asmb.counter)))
    ensures asmb.Fresh() && asmb.entry == old(asmb.entry)
  {
    ghost var start, total := asmb.State(), GenFuncs(p, order, |asmb.instrs|, asmb.counter);
    ghost var done := Seg([], [], asmb.counter);
    AfterNothing(start, asmb.counter);
    CatNothing(total, asmb.counter);
    assert order[0..] == order;
    for i := 0 to |order|
      invariant asmb.State() == start.After(done) && asmb.Fresh() && asmb.entry == old(asmb.entry)
      invariant |asmb.instrs| == |start.instrs| + |done.code| && asmb.counter == done.next
      invariant forall f :: FuncLabel(f) in asmb.labels ==> f in order[..i]
      invariant total == done.Cat(GenFuncs(p, order[i..], |asmb.instrs|, asmb.counter))
    {
      assert order[..i + 1] == order[..i] + [order[i]];
      done := GenerateNextFunc(asmb, p, order, i, start, done);
    }
    CatNothing(done, done.next);
  }

  /** Function i of the order, after the functions before it have been appended to `start` as `done`. */
  method GenerateNextFunc(
    asmb: Assembler, p: Program, order: seq<FuncId>, i: nat, ghost start: Listing, ghost done: Seg)
    returns (ghost next: Seg)
    requires forall f | f in order :: p.IsUser(f)
    requires asmb.Fresh() && i < |order| && FuncLabel(order[i]) !in asmb.labels
    requires asmb.State() == start.After(done)
    requires |asmb.instrs| == |start.instrs| + |done.code| && asmb.counter == done.next
    modifies asmb
    ensures asmb.Fresh() && asmb.entry == old(asmb.entry) && asmb.State() == start.After(next)
    ensures |asmb.instrs| == |start.instrs| + |next.code| && asmb.counter == next.next
    ensures forall g :: FuncLabel(g) in asmb.labels ==> FuncLabel(g) in old(asmb.labels) || g == order[i]
    ensures old(done.Cat(GenFuncs(p, order[i..], |asmb.instrs|, asmb.counter)))
         == next.Cat(GenFuncs(p, order[i + 1..], |asmb.instrs|, asmb.counter))
  {
    hide GenFunc, Listing.After, FreshLabels, Declared;
    ghost var s := GenFunc(p, order[i], |asmb.instrs|, asmb.counter);
    assert order[i..][0] == order[i] && order[i..][1..] == order[i + 1..];
    CatAssoc(done, s, GenFuncs(p, order[i + 1..], |asmb.instrs| + |s.code|, s.next));
    AfterCat(start, done, s);
    var _ := GenerateFunc(asmb, p, order[i]);
    next := done.Cat(s);
  }

  method GenerateExecs(asmb: Assembler, p: Program) returns (labels: seq<Label>)
    requires asmb.Fresh()
    modifies asmb
    ensures Appended(asmb, old(GenExecs(p, p.execs, |asmb.instrs|, asmb.counter)))
    ensures labels == old(ExecLabels(p, p.execs, |asmb.instrs|, asmb.counter))
    ensures asmb.Fresh() && asmb.entry == old(asmb.entry)
  {
    hide GenExec, Declared, FreshLabels;
    ghost var start, total := asmb.State(), GenExecs(p, p.execs, |asmb.instrs|, asmb.counter);
    ghost var names := ExecLabels(p, p.execs, |asmb.instrs|, asmb.counter);
    ghost var done := Seg([], [], asmb.counter);
    AfterNothing(start, asmb.counter);
    CatNothing(total, asmb.counter);
    assert p.execs[0..] == p.execs;
    labels := [];
    for i := 0 to |p.execs|
      invariant asmb.State() == start.After(done) && asmb.Fresh() && asmb.entry == old(asmb.entry)
      invariant |asmb.instrs| == |start.instrs| + |done.code| && asmb.counter == done.next
      invariant total == done.Cat(GenExecs(p, p.execs[i..], |asmb.instrs|, asmb.counter))
      invariant names == labels + ExecLabels(p, p.execs[i..], |asmb.instrs|, asmb.counter)
    {
      var l;
      done, l := GenerateNextExec(asmb, p, i, start, done);
      ghost var rest := ExecLabels(p, p.execs[i + 1..], |asmb.instrs|, asmb.counter);
      assert labels + ([l] + rest) == labels + [l] + rest;
      labels := labels + [l];
    }
    CatNothing(done, done.next);
  }

  /** Statement i, after the statements before it have been appended to `start` as `done`. */
  method GenerateNextExec(asmb: Assembler, p: Program, i: nat, ghost start: Listing, ghost done: Seg)
    returns (ghost next: Seg, l: Label)
    requires asmb.Fresh() && i < |p.execs| && asmb.State() == start.After(done)
    requires |asmb.instrs| == |start.instrs| + |done.code| && asmb.counter == done.next
    modifies asmb
    ensures asmb.Fresh() && asmb.entry == old(asmb.entry) && asmb.State() == start.After(next)
    ensures |asmb.instrs| == |start.instrs| + |next.code| && asmb.counter == next.next
    ensures old(done.Cat(GenExecs(p, p.execs[i..], |asmb.instrs|, asmb.counter)))
         == next.Cat(GenExecs(p, p.execs[i + 1..], |asmb.instrs|, asmb.counter))
    ensures old(ExecLabels(p, p.execs[i..], |asmb.instrs|, asmb.counter))
         == [l] + ExecLabels(p, p.execs[i + 1..], |asmb.instrs|, asmb.counter)
  {
    hide GenExec, GenExecs, ExecLabels, Listing.After, FreshLabels;
    ghost var s := GenExec(p, p.execs[i], |asmb.instrs|, asmb.counter);
    ExecStep(p, i, done, |asmb.instrs|, asmb.counter);
    AfterCat(start, done, s);
    l := GenerateExecStmt(asmb, p, p.execs[i]);
    next := done.Cat(s);
  }

  lemma ExecStep(p: Program, i: nat, done: Seg, pos: nat, ctr: nat)
    requires i < |p.execs|
    ensures var s := GenExec(p, p.execs[i], pos, ctr);
            && done.Cat(GenExecs(p, p.execs[i..], pos, ctr))
            == done.Cat(s).Cat(GenExecs(p, p.execs[i + 1..], pos + |s.code|, s.next))
            && ExecLabels(p, p.execs[i..], pos, ctr)
            == [Generated(ExecLabel, ctr)] + ExecLabels(p, p.execs[i + 1..], pos + |s.code|, s.next)
  {
    var s := GenExec(p, p.execs[i], pos, ctr);
    hide GenExec;
    assert p.execs[i..][0] == p.execs[i] && p.execs[i..][1..] == p.execs[i + 1..];
    CatAssoc(done, s, GenExecs(p, p.execs[i + 1..], pos + |s.code|, s.next));
  }

  method CallInOrder(asmb: Assembler, labels: seq<Label>)
    modifies asmb
    ensures asmb.State() == old(asmb.State()).Emit(CallAll(labels)) && asmb.entry == old(asmb.entry)
  {
    ghost var start, calls := asmb.State(), CallAll(labels);
    for i := 0 to |labels|
      invariant asmb.State() == start.Emit(calls[..i]) && asmb.entry == old(asmb.entry)
    {
      asmb.Add(Instr.Call(0, labels[i], false));
      assert asmb.instrs == start.instrs + calls[..i + 1];
    }
  }
}
