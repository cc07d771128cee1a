/** A generated program stops with a failure whenever the execute statements fail. */
module FailingProgram {
  import opened Lang
  import opened Machine
  import opened CodeGen
  import opened Generator
  import opened Purity
  import opened Representation
  import opened Skipping
  import opened Correctness
  import opened WholeProgram
  import opened Failing
  import opened FailingCode

  /** The main theorem: if an execute statement fails after those before it have run to their end, the
      generated program stops with the same failure, after the same actions with the same replies used. */
  lemma FailureReached(p: Program, order: seq<FuncId>, fuel: nat, w: World, x: Failure)
    requires Fits(p) && SkipsSafelyAnywhere(p) && SkipsQuietlyAnywhere(p) && NoInputs(p.execs) && Enumerates(p, order)
    requires ProgramFails(p, fuel, p.execs, w) == Some(x)
    ensures var g := GenProgram(p, order);
            && g.entry in Executable(g).labels
            && Reaches(Executable(g), Running(Executable(g).labels[g.entry], [], 0, w), Failed(x))
  {
    hide GenProgram, GenFuncs, GenExecs, ExecLabels, Embedded, Fits, SkipsSafelyAnywhere, SkipsQuietlyAnywhere,
         ProgramFails, CallAll, Executable, Reaches;
    var c, s1, s2, at := ProgramPlaced(p, order);
    var img := MakeImage(p, order, c);
    if |p.execs| == 1 {
      OnlyExecStops(img, fuel, |s1.code|, s1.next, w, x);
    } else {
      ExecsStop(img, fuel, p.execs, |s1.code|, s1.next, at, [], w, x);
    }
  }

  lemma {:induction false} ExecStops(
    img: Image, fuel: nat, e: ExecStmt, pos: nat, ctr: nat, stk: seq<Word>, w: World, x: Failure)
    requires Good(img) && SkipsQuietlyAnywhere(img.p)
    requires Embedded(img.code, pos, GenExec(img.p, e, pos, ctr)) && e.consts.Inputs() == []
    requires Fails(img.p, ExecScope(e), fuel, e.expr, map[], w) == Some(x)
    ensures Reaches(img.code, Running(pos, stk, |stk|, w), Failed(x))
  {
    hide Rep, RepEnv, Gen, Good, Fails, Embedded, Reaches, GenExec, ScopeOk, SkipsQuietlyAnywhere, SkipsSafely, SkipsQuietly,
         HasCaller;
    var l := ExecOpens(img, e, pos, ctr, stk, w);
    FailureStops(l, fuel, e.expr, false, 1, ctr + 1, x);
    ReachTrans(img.code, Running(pos, stk, |stk|, w), l.State(), Failed(x));
  }

  lemma OnlyExecStops(img: Image, fuel: nat, pos: nat, ctr: nat, w: World, x: Failure)
    requires Good(img) && SkipsQuietlyAnywhere(img.p) && NoInputs(img.p.execs) && |img.p.execs| == 1
    requires Embedded(img.code, pos, GenExecs(img.p, img.p.execs, pos, ctr))
    requires ProgramFails(img.p, fuel, img.p.execs, w) == Some(x)
    ensures var l := ExecLabels(img.p, img.p.execs, pos, ctr)[0];
            l in img.code.labels && Reaches(img.code, Running(img.code.labels[l], [], 0, w), Failed(x))
  {
    hide Good, Eval, Fails, GenExec, GenExecs, ExecLabels, Embedded, SkipsQuietlyAnywhere, Reaches;
    var e := img.p.execs[0];
    ExecsPlaced(img, img.p.execs, pos, ctr);
    assert img.p.execs[1..] == [];
    ExecStops(img, fuel, e, pos, ctr, [], w, x);
  }

  /** The calls from `at` on run the statements before the one that fails. */
  lemma {:induction false} ExecsStop(
    img: Image, fuel: nat, execs: seq<ExecStmt>, pos: nat, ctr: nat, at: nat, stk: seq<Word>, w: World, x: Failure)
    requires Good(img) && SkipsQuietlyAnywhere(img.p) && NoInputs(execs)
    requires Embedded(img.code, pos, GenExecs(img.p, execs, pos, ctr))
    requires ProgramFails(img.p, fuel, execs, w) == Some(x)
    requires Has(img.code, at, CallAll(ExecLabels(img.p, execs, pos, ctr)))
    ensures Reaches(img.code, Running(at, stk, 0, w), Failed(x))
    decreases |execs|
  {
    hide Good, Eval, Fails, GenExec, GenExecs, ExecLabels, CallAll, Embedded, SkipsQuietlyAnywhere, Reaches;
    var e, c, s := execs[0], img.code, GenExec(img.p, execs[0], pos, ctr);
    ExecsPlaced(img, execs, pos, ctr);
    var l, rest := Generated(ExecLabel, ctr), ExecLabels(img.p, execs[1..], pos + |s.code|, s.next);
    CallFirst(l, rest);
    HasSplit(c, at, [Instr.Call(0, l, false)], CallAll(rest));
    if Fails(img.p, ExecScope(e), fuel, e.expr, map[], w).Some? {
      CalledExecStops(img, fuel, e, pos, ctr, at, stk, w, x);
    } else {
      var r := Eval(img.p, ExecScope(e), fuel, e.expr, map[], w);
      var stk1 := OneExec(img, fuel, e, pos, ctr, at, stk, w);
      ExecsStop(img, fuel, execs[1..], pos + |s.code|, s.next, at + 1, stk1, r.world, x);
      ReachTrans(c, Running(at, stk, 0, w), Running(at + 1, stk1, 0, r.world), Failed(x));
    }
  }

  lemma CalledExecStops(
    img: Image, fuel: nat, e: ExecStmt, pos: nat, ctr: nat, at: nat, stk: seq<Word>, w: World, x: Failure)
    requires Good(img) && SkipsQuietlyAnywhere(img.p)
    requires Embedded(img.code, pos, GenExec(img.p, e, pos, ctr)) && e.consts.Inputs() == []
    requires Fails(img.p, ExecScope(e), fuel, e.expr, map[], w) == Some(x)
    requires Has(img.code, at, [Instr.Call(0, Generated(ExecLabel, ctr), false)])
    requires Generated(ExecLabel, ctr) in img.code.labels && img.code.labels[Generated(ExecLabel, ctr)] == pos
    ensures Reaches(img.code, Running(at, stk, 0, w), Failed(x))
  {
    hide Reaches, Good, Fails, GenExec, Embedded, SkipsQuietlyAnywhere;
    var c, call, s0 := img.code, Instr.Call(0, Generated(ExecLabel, ctr), false), Running(at, stk, 0, w);
    assert c.instrs[at + 0] == [call][0];
    ReachRefl(c, s0);
    ReachStep(c, s0, s0, call);
    var stk2 := stk + [WIp(at + 1), WHome(0)];
    assert Drop(stk, 0) + [WIp(at + 1), WHome(0)] + Last(stk, 0) == stk2;
    ExecStops(img, fuel, e, pos, ctr, stk2, w, x);
    ReachTrans(c, s0, Running(pos, stk2, |stk2|, w), Failed(x));
  }
}
