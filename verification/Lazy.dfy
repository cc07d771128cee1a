/** Getting the value of a lazy object: the emitted instructions, run by any number of executors that
    interleave after every instruction and share one lazy object.

    The object is a structure of an atomic flag (0: not computed, 1: being computed, 2: computed)
    and a field that holds the closure and later the value. The closure may return any value, may
    run forever, may get lazy objects itself (this one included), and its executor may stop at any
    point. */
module Lazy {
  import opened Lang
  import opened Machine
  import opened CodeGen
  import opened Assembling
  import opened Representation

  // ----- The emitted code -----

  function GetCode(ctr: nat): seq<Instr> {
    [Dup, Dup, StructLoadField(0), AtomicCompareSwap(0, 1), JumpIf(Generated(LazyGetNotIdle, ctr)),
     Dup, Dup, StructLoadField(1), Instr.CallDyn(0, false), StructStoreField(1),
     StructLoadField(0), AtomicCompareSwap(1, 2), Instr.Pop, Jump(Generated(LazyGetReturnResult, ctr + 1)),
     StructLoadField(0), AtomicBlock(2),
     StructLoadField(1)]
  }

  function GetSeg(pos: nat, ctr: nat): Seg {
    Seg(GetCode(ctr),
        [Decl(Generated(LazyGetNotIdle, ctr), pos + 14), Decl(Generated(LazyGetReturnResult, ctr + 1), pos + 16)],
        ctr + 2)
  }

  method GenLazyGet(asmb: Assembler)
    requires asmb.Fresh()
    modifies asmb
    ensures asmb.State() == old(asmb.State()).After(old(GetSeg(|asmb.instrs|, asmb.counter)))
    ensures asmb.Fresh() && asmb.entry == old(asmb.entry)
  {
    ghost var start := asmb.State();
    var notIdleLabel := asmb.GenerateLabel(LazyGetNotIdle);
    var returnResultLabel := asmb.GenerateLabel(LazyGetReturnResult);

    GenTry(asmb, notIdleLabel);
    assert asmb.instrs == start.instrs + GetCode(start.counter)[..5];

    // The value has not been computed yet.
    GenCompute(asmb, returnResultLabel);
    ghost var computed := asmb.State();
    assert GetCode(start.counter)[..14] == GetCode(start.counter)[..5] + ComputeCode(returnResultLabel);
    assert computed.instrs == start.instrs + GetCode(start.counter)[..14];

    // Wait for the value to be available.
    asmb.DeclareLabel(notIdleLabel);
    asmb.Add(StructLoadField(0));
    asmb.Add(AtomicBlock(2));

    asmb.DeclareLabel(returnResultLabel);
    asmb.Add(StructLoadField(1));
    assert asmb.instrs == start.instrs + GetCode(start.counter);
    ghost var d1 := Decl(notIdleLabel, |start.instrs| + 14);
    ghost var d2 := Decl(returnResultLabel, |start.instrs| + 16);
    DeclaredCat(start.labels, [d1], [d2]);
    assert [d1] + [d2] == [d1, d2];
  }

  function TryCode(notIdle: Label): seq<Instr> {
    [Dup, Dup, StructLoadField(0), AtomicCompareSwap(0, 1), JumpIf(notIdle)]
  }

  /** Tries to change the flag from 0 to 1. */
  method GenTry(asmb: Assembler, notIdle: Label)
    modifies asmb
    ensures asmb.State() == old(asmb.State()).Emit(TryCode(notIdle)) && asmb.entry == old(asmb.entry)
  {
    ghost var start := asmb.State();
    asmb.Add(Dup);
    asmb.Add(Dup);
    asmb.Add(StructLoadField(0));
    asmb.Add(AtomicCompareSwap(0, 1));
    asmb.Add(JumpIf(notIdle));
    assert asmb.instrs == start.instrs + TryCode(notIdle);
  }

  function ComputeCode(done: Label): seq<Instr> {
    [Dup, Dup, StructLoadField(1), Instr.CallDyn(0, false), StructStoreField(1),
     StructLoadField(0), AtomicCompareSwap(1, 2), Instr.Pop, Jump(done)]
  }

  /** Calls the closure, stores its result and changes the flag from 1 to 2. */
  method GenCompute(asmb: Assembler, done: Label)
    modifies asmb
    ensures asmb.State() == old(asmb.State()).Emit(ComputeCode(done)) && asmb.entry == old(asmb.entry)
  {
    ghost var start := asmb.State();
    asmb.Add(Dup);
    asmb.Add(Dup);
    asmb.Add(StructLoadField(1));
    asmb.Add(Instr.CallDyn(0, false));
    asmb.Add(StructStoreField(1));
    assert asmb.instrs == start.instrs + ComputeCode(done)[..5];
    asmb.Add(StructLoadField(0));
    asmb.Add(AtomicCompareSwap(1, 2));
    asmb.Add(Instr.Pop);
    asmb.Add(Jump(done));
    assert asmb.instrs == start.instrs + ComputeCode(done);
  }

  // ----- Executors sharing one object -----

  /** What stack slots and the second field hold. */
  datatype Cell = Obj | AtomicRef | Num(n: int) | Thunk | Val(v: int)

  datatype Shared = Shared(flag: int, field: Cell)

  /** A get of the object, by the copy of the code at `base`, or the running closure. */
  datatype Frame = Get(base: nat, ctr: nat, ip: nat, stack: seq<Cell>) | InClosure

  /** Below its frames every executor runs code of its own. */
  datatype Executor = Executor(frames: seq<Frame>, alive: bool)

  datatype Owner = Nobody | Owner(exec: nat, depth: nat)

  /** `owner`, `calls` and `returned` record history: the frame whose first swap succeeded last, how
      often the closure was called and what the finished gets returned. */
  datatype System =
    System(mem: Shared, execs: seq<Executor>, owner: Owner, calls: nat, returned: seq<Cell>)
  {
    ghost predicate HasFrame(i: nat, k: nat) {
      i < |execs| && k < |execs[i].frames|
    }

    function Replace(i: nat, frames: seq<Frame>): System
      requires i < |execs|
    {
      this.(execs := execs[i := execs[i].(frames := frames)])
    }
  }

  datatype Outcome = Go(frame: Frame, mem: Shared) | Called(frame: Frame) | Blocked | Wrong

  function TopCell(st: seq<Cell>): Cell {
    if st == [] then Thunk else st[|st| - 1]
  }

  function Under(st: seq<Cell>, n: nat): seq<Cell> {
    if n <= |st| then st[..|st| - n] else []
  }

  function Jumped(c: Code, f: Frame, l: Label, st: seq<Cell>, m: Shared): Outcome
    requires f.Get?
  {
    if l in c.labels then Go(f.(ip := c.labels[l], stack := st), m) else Wrong
  }

  /** One instruction of a get. */
  function ExecGet(c: Code, f: Frame, m: Shared): Outcome
    requires f.Get? && f.ip < |c.instrs|
  {
    var st, top, rest, next := f.stack, TopCell(f.stack), Under(f.stack, 1), f.(ip := f.ip + 1);
    match c.instrs[f.ip]
    case Dup => if st == [] then Wrong else Go(next.(stack := st + [top]), m)
    case Pop => if st == [] then Wrong else Go(next.(stack := rest), m)
    case StructLoadField(x) =>
      if st == [] || !top.Obj? || x > 1 then Wrong
      else Go(next.(stack := rest + [if x == 0 then AtomicRef else m.field]), m)
    case StructStoreField(x) =>
      if |st| < 2 || !TopCell(rest).Obj? || x != 1 then Wrong
      else Go(next.(stack := Under(st, 2)), m.(field := top))
    case AtomicCompareSwap(e, d) =>
      if st == [] || !top.AtomicRef? then Wrong
      else Go(next.(stack := rest + [Num(m.flag)]), m.(flag := if m.flag == e then d else m.flag))
    case AtomicBlock(e) =>
      if st == [] || !top.AtomicRef? then Wrong
      else if m.flag == e then Go(next.(stack := rest), m) else Blocked
    case Jump(l) => Jumped(c, f, l, st, m)
    case JumpIf(l) =>
      if st == [] || !top.Num? then Wrong
      else if top.n != 0 then Jumped(c, f, l, rest, m) else Go(next.(stack := rest), m)
    case CallDyn(n, _) => if st == [] || !top.Thunk? || n != 0 then Wrong else Called(next.(stack := rest))
    case _ => Wrong
  }

  /** What may happen next: an executor starts a get, executes one instruction of one, finishes one,
      its closure returns, or it stops for good. */
  datatype Act =
    | Start(exec: nat, base: nat, ctr: nat)
    | Execute(exec: nat)
    | Finish(exec: nat)
    | Return(exec: nat, v: int)
    | Stop(exec: nat)

  ghost predicate Enabled(c: Code, s: System, a: Act) {
    a.exec < |s.execs| && s.execs[a.exec].alive &&
    var frames := s.execs[a.exec].frames;
    match a
    case Start(_, base, ctr) =>
      (frames == [] || TopFrame(frames).InClosure?) && Embedded(c, base, GetSeg(base, ctr))
    case Execute(_) =>
      && frames != [] && TopFrame(frames).Get? && TopFrame(frames).ip < TopFrame(frames).base + 17
      && TopFrame(frames).ip < |c.instrs|
      && (ExecGet(c, TopFrame(frames), s.mem).Go? || ExecGet(c, TopFrame(frames), s.mem).Called?)
    case Finish(_) => frames != [] && TopFrame(frames).Get? && TopFrame(frames).ip == TopFrame(frames).base + 17
    case Return(_, _) => |frames| > 1 && TopFrame(frames).InClosure? && frames[|frames| - 2].Get?
    case Stop(_) => true
  }

  function TopFrame(frames: seq<Frame>): Frame
    requires frames != []
  {
    frames[|frames| - 1]
  }

  function Below(frames: seq<Frame>): seq<Frame>
    requires frames != []
  {
    frames[..|frames| - 1]
  }

  ghost function Do(c: Code, s: System, a: Act): System
    requires Enabled(c, s, a)
  {
    var i, frames := a.exec, s.execs[a.exec].frames;
    match a
    case Start(_, base, ctr) => s.Replace(i, frames + [Get(base, ctr, base, [Obj])])
    case Execute(_) =>
      (match ExecGet(c, TopFrame(frames), s.mem)
       case Go(f, m) =>
         s.Replace(i, Below(frames) + [f])
         .(mem := m, owner := if s.mem.flag == 0 && m.flag == 1 then Owner(i, |frames| - 1) else s.owner)
       case Called(f) => s.Replace(i, Below(frames) + [f, InClosure]).(calls := s.calls + 1))
    case Finish(_) => s.Replace(i, Below(frames)).(returned := s.returned + [TopCell(TopFrame(frames).stack)])
    case Return(_, v) =>
      var f := frames[|frames| - 2];
      s.Replace(i, frames[..|frames| - 2] + [f.(stack := f.stack + [Val(v)])])
    case Stop(_) => s.(execs := s.execs[i := s.execs[i].(alive := false)])
  }

  /** A run from s to t. */
  ghost predicate Runs(c: Code, s: System, acts: seq<Act>, t: System)
    decreases |acts|
  {
    if acts == [] then s == t
    else Enabled(c, s, acts[0]) && Runs(c, Do(c, s, acts[0]), acts[1..], t)
  }

  /** A new lazy object and n executors that have not touched it. */
  function Initial(n: nat): System {
    System(Shared(0, Thunk), seq(n, _ => Executor([], true)), Nobody, 0, [])
  }

  // ----- The invariant -----

  /** Frame k of executor i is the one computing the value. */
  predicate Owns(s: System, i: nat, k: nat) {
    s.mem.flag == 1 && s.owner == Owner(i, k)
  }

  /** The operand stack at offset p of the code and what is known there of the shared state. */
  predicate Shape(s: System, p: nat, st: seq<Cell>) {
    match p
    case 0 => st == [Obj]
    case 1 => st == [Obj, Obj]
    case 2 => st == [Obj, Obj, Obj]
    case 3 => st == [Obj, Obj, AtomicRef]
    case 4 =>
      |st| == 3 && st[..2] == [Obj, Obj] && st[2].Num? && 0 <= st[2].n <= 2
      && s.mem.flag >= 1 && (st[2].n == 0 ==> Fresh(s))
    case 5 => st == [Obj, Obj] && Fresh(s)
    case 6 => st == [Obj, Obj, Obj] && Fresh(s)
    case 7 => st == [Obj, Obj, Obj, Obj] && Fresh(s)
    case 8 => st == [Obj, Obj, Obj, Thunk] && Fresh(s)
    case 9 =>
      (st == [Obj, Obj, Obj] || (|st| == 4 && st[..3] == [Obj, Obj, Obj] && st[3].Val?))
      && s.calls == 1 && s.mem.field == Thunk
    case 10 => st == [Obj, Obj] && s.calls == 1 && s.mem.field.Val?
    case 11 => st == [Obj, AtomicRef] && s.calls == 1 && s.mem.field.Val?
    case 12 => st == [Obj, Num(1)] && s.mem.flag == 2
    case 13 => st == [Obj] && s.mem.flag == 2
    case 14 => st == [Obj, Obj] && s.mem.flag >= 1
    case 15 => st == [Obj, AtomicRef] && s.mem.flag >= 1
    case 16 => st == [Obj] && s.mem.flag == 2
    case 17 => st == [s.mem.field] && s.mem.flag == 2
    case _ => false
  }

  predicate Fresh(s: System) {
    s.calls == 0 && s.mem.field == Thunk
  }

  /** Only the owner is between the two swaps. */
  predicate OwnerPart(p: int, st: seq<Cell>) {
    (p == 4 && |st| == 3 && st[2] == Num(0)) || 5 <= p <= 11
  }

  ghost predicate GetOk(c: Code, s: System, i: nat, k: nat, f: Frame, top: bool)
    requires f.Get?
  {
    && Embedded(c, f.base, GetSeg(f.base, f.ctr))
    && f.base <= f.ip <= f.base + 17
    && Shape(s, f.ip - f.base, f.stack)
    && (OwnerPart(f.ip - f.base, f.stack) <==> Owns(s, i, k))
    && (f.ip - f.base == 9 ==> (top <==> |f.stack| == 4))
    && (!top ==> f.ip - f.base == 9)
  }

  ghost predicate FrameOk(c: Code, s: System, i: nat, k: nat)
    requires s.HasFrame(i, k)
  {
    var frames := s.execs[i].frames;
    match frames[k]
    case Get(_, _, _, _) => GetOk(c, s, i, k, frames[k], k == |frames| - 1) && (k + 1 < |frames| ==> frames[k + 1].InClosure?)
    case InClosure => k > 0 && Owns(s, i, k - 1) && frames[k - 1].Get? && (k + 1 < |frames| ==> frames[k + 1].Get?)
  }

  ghost predicate Inv(c: Code, s: System) {
    && Globals(s)
    && (forall i: nat, k: nat | s.HasFrame(i, k) :: FrameOk(c, s, i, k))
  }

  ghost predicate Globals(s: System) {
    && 0 <= s.mem.flag <= 2
    && (s.mem.flag == 0 ==> Fresh(s))
    && (s.mem.flag == 1 ==>
          s.owner.Owner? && s.HasFrame(s.owner.exec, s.owner.depth)
          && s.execs[s.owner.exec].frames[s.owner.depth].Get?)
    && (s.mem.flag == 2 ==> s.calls == 1 && s.mem.field.Val?)
    && (forall x | x in s.returned :: s.mem.flag == 2 && x == s.mem.field)
  }

  /** Every action keeps the invariant. */
  lemma Keeps(c: Code, s: System, a: Act)
    requires Inv(c, s) && Enabled(c, s, a)
    ensures Inv(c, Do(c, s, a))
  {
    match a
    case Start(_, _, _) => KeepsStart(c, s, a);
    case Execute(_) => KeepsExecute(c, s, a);
    case Finish(_) => KeepsFinish(c, s, a);
    case Return(_, _) => KeepsReturn(c, s, a);
    case Stop(_) => KeepsStop(c, s, a);
  }

  /** A frame is as good as before where the shared state has not changed. */
  lemma GetSame(c: Code, s: System, t: System, i: nat, k: nat, f: Frame, top: bool)
    requires f.Get? && t.mem == s.mem && t.owner == s.owner && t.calls == s.calls
    ensures GetOk(c, t, i, k, f, top) == GetOk(c, s, i, k, f, top) && Owns(t, i, k) == Owns(s, i, k)
  {
    hide Embedded;
  }

  lemma KeepsStart(c: Code, s: System, a: Act)
    requires Inv(c, s) && Enabled(c, s, a) && a.Start?
    ensures Inv(c, Do(c, s, a))
  {
    var t := Do(c, s, a);
    var frames := s.execs[a.exec].frames;
    var n := |frames|;
    assert t.execs[a.exec].frames == frames + [Get(a.base, a.ctr, a.base, [Obj])];
    StartOk(c, s, a);
    if n > 0 { assert FrameOk(c, s, a.exec, n - 1) && frames[n - 1].InClosure?; }
    hide GetOk, Do, Enabled;
    forall i: nat, k: nat | t.HasFrame(i, k) ensures FrameOk(c, t, i, k) {
      if s.HasFrame(i, k) {
        assert FrameOk(c, s, i, k);
        var f := s.execs[i].frames[k];
        if f.Get? { GetSame(c, s, t, i, k, f, k == |s.execs[i].frames| - 1); }
      }
    }
  }

  lemma StartOk(c: Code, s: System, a: Act)
    requires Inv(c, s) && Enabled(c, s, a) && a.Start?
    ensures var t, n := Do(c, s, a), |s.execs[a.exec].frames|;
            && t.mem == s.mem && t.owner == s.owner && t.calls == s.calls && t.HasFrame(a.exec, n) && Globals(t)
            && GetOk(c, t, a.exec, n, t.execs[a.exec].frames[n], true)
  {
    hide Embedded;
    assert !s.HasFrame(a.exec, |s.execs[a.exec].frames|);
  }

  lemma KeepsStop(c: Code, s: System, a: Act)
    requires Inv(c, s) && Enabled(c, s, a) && a.Stop?
    ensures Inv(c, Do(c, s, a))
  {
    var t := Do(c, s, a);
    assert Globals(t) && t.mem == s.mem && t.owner == s.owner && t.calls == s.calls;
    hide GetOk;
    forall i: nat, k: nat | t.HasFrame(i, k) ensures FrameOk(c, t, i, k) {
      assert FrameOk(c, s, i, k);
      var f := s.execs[i].frames[k];
      if f.Get? { GetSame(c, s, t, i, k, f, k == |s.execs[i].frames| - 1); }
    }
  }

  lemma KeepsFinish(c: Code, s: System, a: Act)
    requires Inv(c, s) && Enabled(c, s, a) && a.Finish?
    ensures Inv(c, Do(c, s, a))
  {
    var t := Do(c, s, a);
    var frames := s.execs[a.exec].frames;
    assert FrameOk(c, s, a.exec, |frames| - 1);
    forall i: nat, k: nat | t.HasFrame(i, k) ensures FrameOk(c, t, i, k) {
      assert FrameOk(c, s, i, k);
    }
  }

  lemma KeepsReturn(c: Code, s: System, a: Act)
    requires Inv(c, s) && Enabled(c, s, a) && a.Return?
    ensures Inv(c, Do(c, s, a))
  {
    var t := Do(c, s, a);
    var frames := s.execs[a.exec].frames;
    assert FrameOk(c, s, a.exec, |frames| - 1) && FrameOk(c, s, a.exec, |frames| - 2);
    forall i: nat, k: nat | t.HasFrame(i, k) ensures FrameOk(c, t, i, k) {
      assert FrameOk(c, s, i, k);
    }
  }

  /** What the instruction at offset p does to a get whose stack has the right shape. */
  function Effect(f: Frame, p: nat, m: Shared): Outcome
    requires f.Get?
  {
    var next := f.(ip := f.ip + 1);
    match p
    case 0 => Go(next.(stack := [Obj, Obj]), m)
    case 1 => Go(next.(stack := [Obj, Obj, Obj]), m)
    case 2 => Go(next.(stack := [Obj, Obj, AtomicRef]), m)
    case 3 => Go(next.(stack := [Obj, Obj, Num(m.flag)]), m.(flag := if m.flag == 0 then 1 else m.flag))
    case 4 => Go((if TopCell(f.stack) == Num(0) then next else f.(ip := f.base + 14)).(stack := [Obj, Obj]), m)
    case 5 => Go(next.(stack := [Obj, Obj, Obj]), m)
    case 6 => Go(next.(stack := [Obj, Obj, Obj, Obj]), m)
    case 7 => Go(next.(stack := [Obj, Obj, Obj, m.field]), m)
    case 8 => Called(next.(stack := [Obj, Obj, Obj]))
    case 9 => Go(next.(stack := [Obj, Obj]), m.(field := TopCell(f.stack)))
    case 10 => Go(next.(stack := [Obj, AtomicRef]), m)
    case 11 => Go(next.(stack := [Obj, Num(m.flag)]), m.(flag := if m.flag == 1 then 2 else m.flag))
    case 12 => Go(next.(stack := [Obj]), m)
    case 13 => Go(f.(ip := f.base + 16), m)
    case 14 => Go(next.(stack := [Obj, AtomicRef]), m)
    case 15 => if m.flag == 2 then Go(next.(stack := [Obj]), m) else Blocked
    case _ => Go(next.(stack := [m.field]), m)
  }

  /** No get ever goes wrong: every instruction finds the operands it needs. */
  lemma NeverWrong(c: Code, s: System, i: nat, k: nat, f: Frame)
    requires f.Get? && GetOk(c, s, i, k, f, true) && f.ip < f.base + 17
    ensures f.ip < |c.instrs| && ExecGet(c, f, s.mem) == Effect(f, f.ip - f.base, s.mem)
  {
    var p, st := f.ip - f.base, f.stack;
    var seg := GetSeg(f.base, f.ctr);
    assert c.instrs[f.base + p] == c.instrs[f.base..f.base + 17][p] == GetCode(f.ctr)[p];
    assert seg.decls[0] in seg.decls && seg.decls[1] in seg.decls;
    assert st != [] && TopCell(st) == st[|st| - 1];
    hide Embedded, Owns, OwnerPart, GetSeg;
    var rest := Under(st, 1);
    match p
    case 0 => assert st + [Obj] == [Obj, Obj];
    case 1 => assert st + [Obj] == [Obj, Obj, Obj];
    case 2 => assert rest + [AtomicRef] == [Obj, Obj, AtomicRef];
    case 3 => assert rest + [Num(s.mem.flag)] == [Obj, Obj, Num(s.mem.flag)];
    case 4 => assert rest == st[..2] == [Obj, Obj];
    case 5 => assert st + [Obj] == [Obj, Obj, Obj];
    case 6 => assert st + [Obj] == [Obj, Obj, Obj, Obj];
    case 7 => assert rest + [s.mem.field] == [Obj, Obj, Obj, s.mem.field];
    case 8 => assert st[3] == Thunk && rest == [Obj, Obj, Obj];
    case 9 => assert rest == st[..3] == [Obj, Obj, Obj] && Under(st, 2) == rest[..2] == [Obj, Obj];
    case 10 => assert rest + [AtomicRef] == [Obj, AtomicRef];
    case 11 => assert rest + [Num(s.mem.flag)] == [Obj, Num(s.mem.flag)];
    case 12 => assert rest == [Obj];
    case 13 =>
    case 14 => assert rest + [AtomicRef] == [Obj, AtomicRef];
    case 15 => assert rest == [Obj];
    case _ => assert rest + [s.mem.field] == [s.mem.field];
  }

  lemma KeepsExecute(c: Code, s: System, a: Act)
    requires Inv(c, s) && Enabled(c, s, a) && a.Execute?
    ensures Inv(c, Do(c, s, a))
  {
    var t, k := Do(c, s, a), |s.execs[a.exec].frames| - 1;
    ExecuteMoves(c, s, a);
    hide Do, Enabled, Moves, FrameOk;
    MoverOk(c, s, a.exec, t);
    MoverGlobals(c, s, a.exec, t);
    forall i: nat, j: nat | t.HasFrame(i, j) ensures FrameOk(c, t, i, j) {
      if i != a.exec || j < k {
        OtherOk(c, s, a.exec, t, i, j);
      }
    }
  }

  lemma ExecuteMoves(c: Code, s: System, a: Act)
    requires Inv(c, s) && Enabled(c, s, a) && a.Execute?
    ensures Moves(c, s, a.exec, Do(c, s, a))
  {
    var frames := s.execs[a.exec].frames;
    assert FrameOk(c, s, a.exec, |frames| - 1);
    NeverWrong(c, s, a.exec, |frames| - 1, TopFrame(frames));
    hide Embedded, ExecGet;
  }

  /** What an executed instruction leaves of the system, given its effect. */
  ghost predicate Moves(c: Code, s: System, i: nat, t: System) {
    && i < |s.execs| && s.execs[i].frames != [] && TopFrame(s.execs[i].frames).Get?
    && var frames := s.execs[i].frames;
    var f, k := TopFrame(frames), |frames| - 1;
    && f.base <= f.ip < f.base + 17 && GetOk(c, s, i, k, f, true)
    && match Effect(f, f.ip - f.base, s.mem)
       case Go(f', m) =>
         t == s.Replace(i, Below(frames) + [f'])
         .(mem := m, owner := if s.mem.flag == 0 && m.flag == 1 then Owner(i, k) else s.owner)
       case Called(f') => t == s.Replace(i, Below(frames) + [f', InClosure]).(calls := s.calls + 1)
       case _ => false
  }

  lemma MoverOk(c: Code, s: System, i: nat, t: System)
    requires Inv(c, s) && Moves(c, s, i, t)
    ensures var k := |s.execs[i].frames| - 1;
            && t.HasFrame(i, k) && FrameOk(c, t, i, k) && (t.HasFrame(i, k + 1) ==> FrameOk(c, t, i, k + 1))
            && !t.HasFrame(i, k + 2) && |t.execs| == |s.execs|
            && (forall j | 0 <= j < |s.execs| && j != i :: t.execs[j] == s.execs[j])
  {
    hide Embedded, TopFrame, GetSeg;
  }

  lemma MoverGlobals(c: Code, s: System, i: nat, t: System)
    requires Inv(c, s) && Moves(c, s, i, t)
    ensures Globals(t)
  {
    hide Embedded;
  }

  lemma OtherOk(c: Code, s: System, i: nat, t: System, i2: nat, k2: nat)
    requires Inv(c, s) && Moves(c, s, i, t) && s.HasFrame(i2, k2) && (i2 != i || k2 < |s.execs[i].frames| - 1)
    ensures t.HasFrame(i2, k2) && FrameOk(c, t, i2, k2)
  {
    hide Embedded, Globals, TopCell, GetSeg;
    assert FrameOk(c, s, i2, k2);
  }

  // ----- What holds of every run -----

  ghost predicate Reachable(c: Code, s: System) {
    exists n: nat, acts :: Runs(c, Initial(n), acts, s)
  }

  lemma InitialInv(c: Code, n: nat)
    ensures Inv(c, Initial(n))
  {}

  lemma {:induction false} RunKeeps(c: Code, s: System, acts: seq<Act>, t: System)
    requires Inv(c, s) && Runs(c, s, acts, t)
    ensures Inv(c, t)
    decreases |acts|
  {
    if acts != [] {
      Keeps(c, s, acts[0]);
      RunKeeps(c, Do(c, s, acts[0]), acts[1..], t);
    }
  }

  lemma ReachableInv(c: Code, s: System)
    requires Reachable(c, s)
    ensures Inv(c, s)
  {
    var n: nat, acts :| Runs(c, Initial(n), acts, s);
    InitialInv(c, n);
    RunKeeps(c, Initial(n), acts, s);
  }

  /** Whatever the interleaving: the closure has been called at most once, and every get that has
      returned gave the one value that was computed and stored before. */
  lemma Safe(c: Code, s: System)
    requires Reachable(c, s)
    ensures 0 <= s.mem.flag <= 2 && s.calls <= 1
    ensures forall x | x in s.returned :: s.mem.flag == 2 && s.calls == 1 && x.Val? && x == s.mem.field
  {
    ReachableInv(c, s);
    if s.mem.flag == 1 { assert FrameOk(c, s, s.owner.exec, s.owner.depth); }
  }

  /** The flag only moves from 0 to 1 and from 1 to 2; once it is 2 the value never changes. */
  lemma FlagMoves(c: Code, s: System, a: Act)
    requires Reachable(c, s) && Enabled(c, s, a)
    ensures var t := Do(c, s, a);
            && (t.mem.flag == s.mem.flag || (s.mem.flag, t.mem.flag) in {(0, 1), (1, 2)})
            && (s.mem.flag == 2 ==> t.mem == s.mem)
  {
    ReachableInv(c, s);
    if a.Execute? {
      ExecuteMoves(c, s, a);
      hide Embedded, ExecGet;
    }
  }

  /** A get that reaches the second swap always changes the flag from 1 to 2. */
  lemma SecondSwapSucceeds(c: Code, s: System, i: nat, k: nat)
    requires Reachable(c, s) && s.HasFrame(i, k)
    ensures var f := s.execs[i].frames[k];
            f.Get? && f.ip == f.base + 11 ==> s.mem.flag == 1 && s.mem.field.Val?
  {
    ReachableInv(c, s);
    assert FrameOk(c, s, i, k);
  }

  /** Only one get can be between the two swaps, where the closure is called and its value stored. */
  lemma OneOwner(c: Code, s: System, i: nat, k: nat, i2: nat, k2: nat)
    requires Reachable(c, s) && s.HasFrame(i, k) && s.HasFrame(i2, k2)
    requires var f := s.execs[i].frames[k]; f.Get? && OwnerPart(f.ip - f.base, f.stack)
    requires var f := s.execs[i2].frames[k2]; f.Get? && OwnerPart(f.ip - f.base, f.stack)
    ensures i == i2 && k == k2
  {
    ReachableInv(c, s);
    assert FrameOk(c, s, i, k) && FrameOk(c, s, i2, k2);
  }

  /** A running get can always take its next step, except that it waits while another get computes. */
  lemma WaitsOnlyForOwner(c: Code, s: System, i: nat)
    requires Reachable(c, s) && i < |s.execs| && s.execs[i].alive && s.execs[i].frames != []
    requires TopFrame(s.execs[i].frames).Get?
    ensures var f := TopFrame(s.execs[i].frames);
            || Enabled(c, s, Finish(i))
            || Enabled(c, s, Execute(i))
            || (f.ip == f.base + 15 && s.mem.flag == 1 && s.owner != Owner(i, |s.execs[i].frames| - 1))
  {
    ReachableInv(c, s);
    var frames := s.execs[i].frames;
    var f := TopFrame(frames);
    assert FrameOk(c, s, i, |frames| - 1);
    if f.ip < f.base + 17 {
      NeverWrong(c, s, i, |frames| - 1, f);
      hide ExecGet, Embedded;
      assert f.ip - f.base == 8 ==> Effect(f, 8, s.mem).Called?;
    }
  }

  /** The closure that computes the value has started a get of the same object. */
  ghost predicate GetsItself(s: System) {
    && s.mem.flag == 1 && s.owner.Owner? && s.owner.exec < |s.execs|
    && s.owner.depth + 2 < |s.execs[s.owner.exec].frames|
  }

  lemma GetsItselfStays(c: Code, s: System, a: Act)
    requires Inv(c, s) && Enabled(c, s, a) && GetsItself(s)
    ensures GetsItself(Do(c, s, a)) && Do(c, s, a).returned == s.returned
  {
    hide Embedded, ExecGet;
    var frames, owners := s.execs[a.exec].frames, s.execs[s.owner.exec].frames;
    assert FrameOk(c, s, s.owner.exec, |owners| - 1);
    if frames != [] { assert FrameOk(c, s, a.exec, |frames| - 1); }
    if a.Execute? {
      ExecuteMoves(c, s, a);
    }
  }

  /** Then no get of the object ever returns, whatever happens next. */
  lemma {:induction false} SelfGetNeverReturns(c: Code, s: System, acts: seq<Act>, t: System)
    requires Reachable(c, s) && GetsItself(s) && Runs(c, s, acts, t)
    ensures GetsItself(t) && t.returned == []
  {
    assert s.returned == [] || s.returned[0] in s.returned;
    ReachableInv(c, s);
    StaysInItself(c, s, acts, t);
  }

  lemma {:induction false} StaysInItself(c: Code, s: System, acts: seq<Act>, t: System)
    requires Inv(c, s) && GetsItself(s) && Runs(c, s, acts, t)
    ensures GetsItself(t) && t.returned == s.returned
    decreases |acts|
  {
    if acts != [] {
      GetsItselfStays(c, s, acts[0]);
      Keeps(c, s, acts[0]);
      StaysInItself(c, Do(c, s, acts[0]), acts[1..], t);
    }
  }
}
