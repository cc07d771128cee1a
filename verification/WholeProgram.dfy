/** A generated program, run from its entry point, does what the program means. */
module WholeProgram {
  import opened Lang
  import opened Machine
  import opened CodeGen
  import opened Labels
  import opened Assembling
  import opened Generator
  import opened Purity
  import opened Representation
  import opened Skipping
  import opened Correctness

  /** The code as the executable holds it: label operands resolved by the label table. */
  function Executable(g: Output): Code {
    Code(g.seg.code, Declared(map[], g.seg.decls))
  }

  /** The generator visits every user function, each once. */
  ghost predicate Enumerates(p: Program, order: seq<FuncId>) {
    && (forall f :: f in order <==> p.IsUser(f))
    && (forall i, j :: 0 <= i < j < |order| ==> order[i] != order[j])
  }

  /** Execute statements take no inputs. */
  predicate NoInputs(execs: seq<ExecStmt>) {
    forall x | x in execs :: x.consts.Inputs() == []
  }

  /** The main theorem: if the execute statements of a program run to their end, so does the
      generated program, with the same actions in the same order and the same replies used. */
  lemma ProgramCorrect(p: Program, order: seq<FuncId>, fuel: nat, w: World)
    requires Fits(p) && SkipsSafelyAnywhere(p) && NoInputs(p.execs) && Enumerates(p, order)
    requires RunExecs(p, fuel, p.execs, w).Some?
    ensures var g := GenProgram(p, order);
            && g.entry in Executable(g).labels
            && Reaches(Executable(g), Running(Executable(g).labels[g.entry], [], 0, w),
                       Done(RunExecs(p, fuel, p.execs, w).value))
  {
    hide GenProgram, GenFuncs, GenExecs, ExecLabels, Embedded, Fits, SkipsSafelyAnywhere, RunExecs, CallAll, Executable;
    var c, s1, s2, at := ProgramPlaced(p, order);
    var img := MakeImage(p, order, c);
    if |p.execs| == 1 {
      SingleExec(img, fuel, |s1.code|, s1.next, w);
    } else {
      var stk := AllExecs(img, fuel, p.execs, |s1.code|, s1.next, at, [], w);
      ReachStep(c, Running(at, [], 0, w),
                Running(at + |p.execs|, stk, 0, RunExecs(p, fuel, p.execs, w).value), Ret);
    }
  }

  /** Where the functions, the statements and the entry block of a program are. */
  lemma ProgramPlaced(p: Program, order: seq<FuncId>) returns (c: Code, s1: Seg, s2: Seg, at: nat)
    requires Enumerates(p, order)
    ensures c == Executable(GenProgram(p, order))
    ensures s1 == GenFuncs(p, order, 0, 0) && Embedded(c, 0, s1)
    ensures s2 == GenExecs(p, p.execs, |s1.code|, s1.next) && Embedded(c, |s1.code|, s2)
    ensures var labels, entry := ExecLabels(p, p.execs, |s1.code|, s1.next), GenProgram(p, order).entry;
            if |labels| == 1 then entry == labels[0]
            else
              && entry in c.labels && c.labels[entry] == at && Has(c, at, CallAll(labels))
              && at + |labels| < |c.instrs| && c.instrs[at + |labels|] == Ret
  {
    s1 := GenFuncs(p, order, 0, 0);
    s2 := GenExecs(p, p.execs, |s1.code|, s1.next);
    c, at := Executable(GenProgram(p, order)), |s1.code| + |s2.code|;
    var labels, s := ExecLabels(p, p.execs, |s1.code|, s1.next), s1.Cat(s2);
    hide GenFuncs, GenExecs, ExecLabels, GenExec, Declared, Embedded, CallAll, Has;
    AllPlaced(p, order);
    if |labels| != 1 { EntryPlaced(c, s, CallAll(labels), Generated(EntryPoint, s.next)); }
    EmbeddedCat(c, 0, s1, s2);
  }

  lemma EntryPlaced(c: Code, s: Seg, calls: seq<Instr>, entry: Label)
    requires Embedded(c, 0, s.(next := s.next + 1).Declare(entry, |s.code|).Emit(calls + [Ret]))
    ensures Embedded(c, 0, s) && entry in c.labels && c.labels[entry] == |s.code| && Has(c, |s.code|, calls)
    ensures |s.code| + |calls| < |c.instrs| && c.instrs[|s.code| + |calls|] == Ret
  {
    hide Embedded;
    EmbeddedEmit(c, 0, s.(next := s.next + 1).Declare(entry, |s.code|), calls + [Ret]);
    EmbeddedDeclare(c, 0, s.(next := s.next + 1), entry, |s.code|);
    EmbeddedNext(c, 0, s, s.next + 1);
    HasSplit(c, |s.code|, calls, [Ret]);
    assert [Ret][0] == c.instrs[|s.code| + |calls| + 0];
  }

  // ----- Every label is declared once, where the code is -----

  ghost predicate Tables(decls: seq<Decl>, lo: nat, hi: nat, fs: set<FuncId>) {
    Distinct(decls) && forall d | d in decls :: Numbered(d, lo, hi) || (d.name.FuncLabel? && d.name.func in fs)
  }

  lemma TablesCat(a: seq<Decl>, b: seq<Decl>, lo: nat, mid: nat, hi: nat, fs: set<FuncId>, gs: set<FuncId>)
    requires Tables(a, lo, mid, fs) && Tables(b, mid, hi, gs) && fs !! gs && lo <= mid <= hi
    ensures Tables(a + b, lo, hi, fs + gs)
  {
    forall d, d' | d in a && d' in b ensures d.name != d'.name {
      assert Numbered(d, lo, mid) || d.name.func in fs;
      assert Numbered(d', mid, hi) || d'.name.func in gs;
    }
    DistinctCat(a, b);
  }

  lemma OneTable(d: Decl, lo: nat, hi: nat, fs: set<FuncId>)
    requires Numbered(d, lo, hi) || (d.name.FuncLabel? && d.name.func in fs)
    ensures Tables([d], lo, hi, fs)
  {}

  lemma WithinTables(decls: seq<Decl>, lo: nat, hi: nat)
    requires Within(decls, lo, hi)
    ensures Tables(decls, lo, hi, {})
  {}

  lemma {:induction false} FuncsTables(p: Program, order: seq<FuncId>, pos: nat, ctr: nat)
    requires forall f | f in order :: p.IsUser(f)
    requires forall i, j :: 0 <= i < j < |order| ==> order[i] != order[j]
    ensures var s := GenFuncs(p, order, pos, ctr);
            ctr <= s.next && Tables(s.decls, ctr, s.next, Elements(order))
  {
    hide Gen, GetMember, LoadConsts;
    if order != [] {
      var f, s := order[0], GenFunc(p, order[0], pos, ctr);
      var rest := GenFuncs(p, order[1..], pos + |s.code|, s.next);
      assert GenFuncs(p, order, pos, ctr) == s.Cat(rest);
      hide GenFunc, GenFuncs, Tables, Elements;
      ElementsFirst(order);
      FuncTables(p, f, pos, ctr);
      FuncsTables(p, order[1..], pos + |s.code|, s.next);
      TablesCat(s.decls, rest.decls, ctr, s.next, rest.next, {f}, Elements(order[1..]));
    }
  }

  function Elements(order: seq<FuncId>): set<FuncId> {
    set f | f in order
  }

  lemma ElementsFirst(order: seq<FuncId>)
    requires order != [] && forall i, j :: 0 <= i < j < |order| ==> order[i] != order[j]
    ensures Elements(order) == {order[0]} + Elements(order[1..]) && {order[0]} !! Elements(order[1..])
  {
    assert order == [order[0]] + order[1..];
  }

  lemma FuncTables(p: Program, f: FuncId, pos: nat, ctr: nat)
    requires p.IsUser(f)
    ensures var s := GenFunc(p, f, pos, ctr);
            ctr <= s.next && Tables(s.decls, ctr, s.next, {f})
  {
    var kind := p.funcs[f].kind;
    var at := pos + |ReserveConsts(kind.consts)|;
    var body := Gen(p, FuncScope(p, f), kind.body, true, 1, at, ctr);
    GenLabels(p, FuncScope(p, f), kind.body, true, 1, at, ctr);
    hide Gen, Within, Tables;
    OneTable(Decl(FuncLabel(f), pos), ctr, ctr, {f});
    WithinTables(body.decls, ctr, body.next);
    TablesCat([Decl(FuncLabel(f), pos)], body.decls, ctr, ctr, body.next, {f}, {});
    assert {f} + {} == {f};
  }

  lemma {:induction false} ExecsTables(p: Program, execs: seq<ExecStmt>, pos: nat, ctr: nat)
    ensures var s := GenExecs(p, execs, pos, ctr);
            ctr <= s.next && Tables(s.decls, ctr, s.next, {})
  {
    if execs != [] {
      var s := GenExec(p, execs[0], pos, ctr);
      var rest := GenExecs(p, execs[1..], pos + |s.code|, s.next);
      assert GenExecs(p, execs, pos, ctr) == s.Cat(rest);
      hide GenExec, GenExecs, Tables;
      ExecTables(p, execs[0], pos, ctr);
      ExecsTables(p, execs[1..], pos + |s.code|, s.next);
      TablesCat(s.decls, rest.decls, ctr, s.next, rest.next, {}, {});
    }
  }

  lemma ExecTables(p: Program, x: ExecStmt, pos: nat, ctr: nat)
    ensures var s := GenExec(p, x, pos, ctr);
            ctr <= s.next && Tables(s.decls, ctr, s.next, {})
  {
    var name, at := Decl(Generated(ExecLabel, ctr), pos), pos + |ReserveConsts(x.consts)|;
    var body := Gen(p, ExecScope(x), x.expr, false, 1, at, ctr + 1);
    GenLabels(p, ExecScope(x), x.expr, false, 1, at, ctr + 1);
    hide Gen, Within, Tables;
    OneTable(name, ctr, ctr + 1, {});
    WithinTables(body.decls, ctr + 1, body.next);
    TablesCat([name], body.decls, ctr, ctr + 1, body.next, {}, {});
  }

  /** With distinct names the table holds every declaration. */
  lemma {:induction false} DeclaredAll(decls: seq<Decl>)
    requires Distinct(decls)
    ensures forall d | d in decls :: d.name in Declared(map[], decls) && Declared(map[], decls)[d.name] == d.at
    decreases |decls|
  {
    if decls != [] {
      var rest := decls[..|decls| - 1];
      DeclaredAll(rest);
      forall d | d in decls
        ensures d.name in Declared(map[], decls) && Declared(map[], decls)[d.name] == d.at
      {
        var i :| 0 <= i < |decls| && decls[i] == d;
        if i < |rest| { assert rest[i] == d; }
      }
    }
  }

  /** All the generated code stands in the executable with its labels. */
  lemma AllPlaced(p: Program, order: seq<FuncId>)
    requires Enumerates(p, order)
    ensures Embedded(Executable(GenProgram(p, order)), 0, GenProgram(p, order).seg)
  {
    var g, s1 := GenProgram(p, order), GenFuncs(p, order, 0, 0);
    var s2 := GenExecs(p, p.execs, |s1.code|, s1.next);
    assert g.seg.decls == s1.decls + s2.decls || g.seg.decls == s1.decls + s2.decls + [Decl(Generated(EntryPoint, s2.next), |s1.code| + |s2.code|)];
    hide GenFuncs, GenExecs, ExecLabels, Tables, GenProgram, Declared;
    FuncsTables(p, order, 0, 0);
    ExecsTables(p, p.execs, |s1.code|, s1.next);
    var fs := Elements(order);
    TablesCat(s1.decls, s2.decls, 0, s1.next, s2.next, fs, {});
    var d := Decl(Generated(EntryPoint, s2.next), |s1.code| + |s2.code|);
    OneTable(d, s2.next, s2.next + 1, {});
    TablesCat(s1.decls + s2.decls, [d], 0, s2.next, s2.next + 1, fs + {}, {});
    TablesDistinct(s1.decls + s2.decls, 0, s2.next, fs + {});
    TablesDistinct(s1.decls + s2.decls + [d], 0, s2.next + 1, fs + {} + {});
    DeclaredAll(g.seg.decls);
    assert g.seg.code[0..|g.seg.code|] == g.seg.code;
  }

  lemma TablesDistinct(decls: seq<Decl>, lo: nat, hi: nat, fs: set<FuncId>)
    requires Tables(decls, lo, hi, fs)
    ensures Distinct(decls)
  {}

  /** The counter at which function f is generated. */
  function CounterOf(p: Program, order: seq<FuncId>, f: FuncId, pos: nat, ctr: nat): nat
    requires forall g | g in order :: p.IsUser(g)
  {
    if order == [] || order[0] == f then ctr
    else
      var s := GenFunc(p, order[0], pos, ctr);
      CounterOf(p, order[1..], f, pos + |s.code|, s.next)
  }

  lemma {:induction false} FuncPlaced(p: Program, order: seq<FuncId>, f: FuncId, pos: nat, ctr: nat, c: Code)
    requires forall g | g in order :: p.IsUser(g)
    requires f in order && Embedded(c, pos, GenFuncs(p, order, pos, ctr))
    ensures FuncLabel(f) in c.labels
    ensures Embedded(c, c.labels[FuncLabel(f)], GenFunc(p, f, c.labels[FuncLabel(f)], CounterOf(p, order, f, pos, ctr)))
  {
    hide Embedded, ConstOffset, UnionIsNullableStruct;
    var s := GenFunc(p, order[0], pos, ctr);
    assert s.decls[0] == Decl(FuncLabel(order[0]), pos) && s.decls[0] in s.decls;
    assert GenFuncs(p, order, pos, ctr) == s.Cat(GenFuncs(p, order[1..], pos + |s.code|, s.next));
    hide GenFunc, GenFuncs, FuncScope, Gen;
    EmbeddedCat(c, pos, s, GenFuncs(p, order[1..], pos + |s.code|, s.next));
    if order[0] != f {
      FuncPlaced(p, order[1..], f, pos + |s.code|, s.next, c);
    }
  }

  lemma MakeImage(p: Program, order: seq<FuncId>, c: Code) returns (img: Image)
    requires Fits(p) && SkipsSafelyAnywhere(p) && Enumerates(p, order)
    requires Embedded(c, 0, GenFuncs(p, order, 0, 0))
    ensures img.p == p && img.code == c && Good(img)
  {
    hide GenFunc, GenFuncs, Embedded;
    img := Image(p, c, seq(|p.funcs|, f requires 0 <= f => CounterOf(p, order, f, 0, 0)));
    forall f | 0 <= f < |p.funcs| ensures Linked(img, f) {
      if p.IsUser(f) { FuncPlaced(p, order, f, 0, 0, c); }
    }
  }

  // ----- Running the statements -----

  /** A statement entered with an empty frame reserves its constants and comes to its expression, which a
      return follows. */
  lemma ExecOpens(img: Image, x: ExecStmt, pos: nat, ctr: nat, stk: seq<Word>, w: World) returns (l: Place)
    requires Good(img) && Embedded(img.code, pos, GenExec(img.p, x, pos, ctr)) && x.consts.Inputs() == []
    ensures l.img == img && l.sc == ExecScope(x) && l.env == map[] && l.w == w && l.home == |stk|
    ensures l.Valid() && Embedded(img.code, l.pos, GenAt(l, x.expr, false, 1, ctr + 1))
    ensures |stk| <= |l.stk| && l.stk[..|stk|] == stk
    ensures var end := l.pos + |GenAt(l, x.expr, false, 1, ctr + 1).code|;
            && end == pos + |GenExec(img.p, x, pos, ctr).code| - 1 && end < |img.code.instrs| && img.code.instrs[end] == Ret
    ensures Reaches(img.code, Running(pos, stk, |stk|, w), l.State())
  {
    hide Rep, Gen, Good, IndexOf, Embedded, Run, Reaches, Step, FuncScope, Dead;
    var c, sc, alloc, home := img.code, ExecScope(x), ReserveConsts(x.consts), |stk|;
    var s1 := Seg(alloc, [Decl(Generated(ExecLabel, ctr), pos)], ctr + 1);
    var s2 := Gen(img.p, sc, x.expr, false, 1, pos + |alloc|, ctr + 1);
    assert GenExec(img.p, x, pos, ctr) == s1.Cat(s2).Emit([Ret]);
    hide GenExec, ReserveConsts;
    EmbeddedEmit(c, pos, s1.Cat(s2), [Ret]);
    EmbeddedCat(c, pos, s1, s2);
    AllocPlaced(c, pos, s1);
    assert [Ret][0] == c.instrs[pos + |s1.Cat(s2).code| + 0];
    assert BindInputs(x.consts.Inputs(), []) == map[];
    var stk2 := OpenFrame(img, pos, sc, stk, home, w, []);
    l := Place(img, sc, pos + |alloc|, stk2, home, map[], w);
  }

  lemma AllocPlaced(c: Code, pos: nat, s: Seg)
    requires Embedded(c, pos, s)
    ensures pos + |s.code| <= |c.instrs| && c.instrs[pos..pos + |s.code|] == s.code
  {}

  /** One statement, entered at its code with an empty frame, ends before its return with its value
      on top. */
  lemma {:induction false} ExecRuns(
    img: Image, fuel: nat, x: ExecStmt, pos: nat, ctr: nat, stk: seq<Word>, w: World)
    returns (stk': seq<Word>, y: Word)
    requires Good(img) && Embedded(img.code, pos, GenExec(img.p, x, pos, ctr)) && x.consts.Inputs() == []
    requires Eval(img.p, ExecScope(x), fuel, x.expr, map[], w).Ok?
    ensures |stk| <= |stk'| && stk'[..|stk|] == stk
    ensures var end := pos + |GenExec(img.p, x, pos, ctr).code| - 1;
            && end < |img.code.instrs| && img.code.instrs[end] == Ret
            && Reaches(img.code, Running(pos, stk, |stk|, w),
                       Running(end, stk' + [y], |stk|, Eval(img.p, ExecScope(x), fuel, x.expr, map[], w).world))
  {
    hide Rep, RepEnv, Gen, Good, Eval, Embedded, Reaches, GenExec, ScopeOk;
    var l := ExecOpens(img, x, pos, ctr, stk, w);
    stk', y := Correct(l, fuel, x.expr, false, 1, ctr + 1, 0);
    var w2 := Eval(img.p, l.sc, fuel, x.expr, map[], w).world;
    ReachTrans(img.code, Running(pos, stk, |stk|, w), l.State(),
               Running(l.pos + |GenAt(l, x.expr, false, 1, ctr + 1).code|, stk' + [y], |stk|, w2));
    assert stk'[..l.home] == l.stk[..l.home];
  }

  lemma SingleExec(img: Image, fuel: nat, pos: nat, ctr: nat, w: World)
    requires Good(img) && NoInputs(img.p.execs) && |img.p.execs| == 1
    requires Embedded(img.code, pos, GenExecs(img.p, img.p.execs, pos, ctr))
    requires RunExecs(img.p, fuel, img.p.execs, w).Some?
    ensures var l := ExecLabels(img.p, img.p.execs, pos, ctr)[0];
            && l in img.code.labels
            && Reaches(img.code, Running(img.code.labels[l], [], 0, w),
                       Done(RunExecs(img.p, fuel, img.p.execs, w).value))
  {
    var x, s := img.p.execs[0], GenExec(img.p, img.p.execs[0], pos, ctr);
    ExecsUnfold(img, fuel, img.p.execs, pos, ctr, w);
    var r := Eval(img.p, ExecScope(x), fuel, x.expr, map[], w);
    assert RunExecs(img.p, fuel, [], r.world) == Some(r.world);
    assert img.p.execs[1..] == [];
    hide Good, Eval, GenExec, GenExecs, ExecLabels, RunExecs;
    var stk', y := ExecRuns(img, fuel, x, pos, ctr, [], w);
    ReachStep(img.code, Running(pos, [], 0, w), Running(pos + |s.code| - 1, stk' + [y], 0, r.world), Ret);
  }

  lemma ExecsUnfold(img: Image, fuel: nat, execs: seq<ExecStmt>, pos: nat, ctr: nat, w: World)
    requires execs != [] && Embedded(img.code, pos, GenExecs(img.p, execs, pos, ctr))
    requires RunExecs(img.p, fuel, execs, w).Some?
    ensures ExecsStart(img, execs, pos, ctr)
    ensures var r := Eval(img.p, ExecScope(execs[0]), fuel, execs[0].expr, map[], w);
            r.Ok? && RunExecs(img.p, fuel, execs, w) == RunExecs(img.p, fuel, execs[1..], r.world)
  {
    hide Eval, GenExec, GenExecs, Embedded, ExecLabels;
    ExecsPlaced(img, execs, pos, ctr);
  }

  /** Where the first statement and the others are. */
  ghost predicate ExecsStart(img: Image, execs: seq<ExecStmt>, pos: nat, ctr: nat)
    requires execs != []
  {
    var s := GenExec(img.p, execs[0], pos, ctr);
    var l := Generated(ExecLabel, ctr);
    && s.code != [] && Embedded(img.code, pos, s) && l in img.code.labels && img.code.labels[l] == pos
    && Embedded(img.code, pos + |s.code|, GenExecs(img.p, execs[1..], pos + |s.code|, s.next))
    && ExecLabels(img.p, execs, pos, ctr) == [l] + ExecLabels(img.p, execs[1..], pos + |s.code|, s.next)
  }

  lemma ExecsPlaced(img: Image, execs: seq<ExecStmt>, pos: nat, ctr: nat)
    requires execs != [] && Embedded(img.code, pos, GenExecs(img.p, execs, pos, ctr))
    ensures ExecsStart(img, execs, pos, ctr)
  {
    hide Gen, Embedded, GenExec, ReserveConsts;
    var s := GenExec(img.p, execs[0], pos, ctr);
    ExecBegins(img.p, execs[0], pos, ctr);
    EmbeddedCat(img.code, pos, s, GenExecs(img.p, execs[1..], pos + |s.code|, s.next));
    hide GenExecs, ExecLabels;
    EmbeddedMeans(img.code, pos, s, s.decls[0]);
  }

  lemma ExecBegins(p: Program, x: ExecStmt, pos: nat, ctr: nat)
    ensures var s := GenExec(p, x, pos, ctr);
            s.code != [] && s.decls != [] && s.decls[0] == Decl(Generated(ExecLabel, ctr), pos)
  {
    hide Gen, ReserveConsts;
  }

  lemma EmbeddedMeans(c: Code, pos: nat, s: Seg, d: Decl)
    requires Embedded(c, pos, s) && d in s.decls
    ensures d.name in c.labels && c.labels[d.name] == d.at
  {}

  /** The calls from `at` on run the remaining statements; each leaves a word in the root frame. */
  lemma {:induction false} AllExecs(
    img: Image, fuel: nat, execs: seq<ExecStmt>, pos: nat, ctr: nat, at: nat, stk: seq<Word>, w: World)
    returns (stk': seq<Word>)
    requires Good(img) && NoInputs(execs)
    requires Embedded(img.code, pos, GenExecs(img.p, execs, pos, ctr))
    requires RunExecs(img.p, fuel, execs, w).Some?
    requires Has(img.code, at, CallAll(ExecLabels(img.p, execs, pos, ctr)))
    ensures Reaches(img.code, Running(at, stk, 0, w),
                    Running(at + |execs|, stk', 0, RunExecs(img.p, fuel, execs, w).value))
    decreases |execs|
  {
    hide Good, Eval, GenExec, GenExecs, ExecLabels, CallAll, Embedded;
    if execs == [] {
      stk' := stk;
      ReachRefl(img.code, Running(at, stk, 0, w));
    } else {
      hide RunExecs;
      var x, c, s := execs[0], img.code, GenExec(img.p, execs[0], pos, ctr);
      var r := Eval(img.p, ExecScope(x), fuel, x.expr, map[], w);
      ExecsUnfold(img, fuel, execs, pos, ctr, w);
      var rest := ExecLabels(img.p, execs[1..], pos + |s.code|, s.next);
      var l := Generated(ExecLabel, ctr);
      CallFirst(l, rest);
      HasSplit(c, at, [Instr.Call(0, l, false)], CallAll(rest));
      var stk1 := OneExec(img, fuel, x, pos, ctr, at, stk, w);
      stk' := AllExecs(img, fuel, execs[1..], pos + |s.code|, s.next, at + 1, stk1, r.world);
      ReachTrans(c, Running(at, stk, 0, w), Running(at + 1, stk1, 0, r.world),
                 Running(at + |execs|, stk', 0, RunExecs(img.p, fuel, execs, w).value));
    }
  }

  lemma CallFirst(l: Label, rest: seq<Label>)
    ensures CallAll([l] + rest) == [Instr.Call(0, l, false)] + CallAll(rest)
  {
    assert ([l] + rest)[1..] == rest;
  }

  lemma {:induction false} OneExec(
    img: Image, fuel: nat, x: ExecStmt, pos: nat, ctr: nat, at: nat, stk: seq<Word>, w: World)
    returns (stk1: seq<Word>)
    requires Good(img) && Embedded(img.code, pos, GenExec(img.p, x, pos, ctr)) && x.consts.Inputs() == []
    requires Eval(img.p, ExecScope(x), fuel, x.expr, map[], w).Ok?
    requires Has(img.code, at, [Instr.Call(0, Generated(ExecLabel, ctr), false)])
    requires Generated(ExecLabel, ctr) in img.code.labels && img.code.labels[Generated(ExecLabel, ctr)] == pos
    ensures Reaches(img.code, Running(at, stk, 0, w),
                    Running(at + 1, stk1, 0, Eval(img.p, ExecScope(x), fuel, x.expr, map[], w).world))
  {
    hide Reaches, Gen, FuncFits;
    var c, w2 := img.code, Eval(img.p, ExecScope(x), fuel, x.expr, map[], w).world;
    var end := pos + |GenExec(img.p, x, pos, ctr).code| - 1;
    var call := Instr.Call(0, Generated(ExecLabel, ctr), false);
    hide Good, Eval, GenExec, Embedded;
    var s0 := Running(at, stk, 0, w);
    assert c.instrs[at + 0] == [call][0];
    ReachRefl(c, s0);
    ReachStep(c, s0, s0, call);
    var stk2 := stk + [WIp(at + 1), WHome(0)];
    assert Drop(stk, 0) + [WIp(at + 1), WHome(0)] + Last(stk, 0) == stk2;
    var stk', y := ExecRuns(img, fuel, x, pos, ctr, stk2, w);
    ReachTrans(c, s0, Running(pos, stk2, |stk2|, w), Running(end, stk' + [y], |stk2|, w2));
    ReachStep(c, s0, Running(end, stk' + [y], |stk2|, w2), Ret);
    stk1 := stk + [y];
    assert (stk' + [y])[..|stk2|] == stk2;
    assert (stk' + [y])[|stk2| - 2] == stk2[|stk2| - 2] && (stk' + [y])[|stk2| - 1] == stk2[|stk2| - 1];
    assert (stk' + [y])[..|stk2| - 2] == stk2[..|stk2| - 2] == stk;
  }
}
