/** The generated code does what the evaluator says. */
module Correctness {
  import opened Lang
  import opened Machine
  import opened CodeGen
  import opened Purity
  import opened Representation
  import opened Skipping
  import Effects

  ghost function EvalAt(l: Place, fuel: nat, e: Expr): Result<Value> {
    Eval(l.img.p, l.sc, fuel, e, l.env, l.w)
  }

  ghost function GenAt(l: Place, e: Expr, tail: bool, req: nat, ctr: nat): Seg {
    Gen(l.img.p, l.sc, e, tail, req, l.pos, ctr)
  }

  /** e evaluates here and its code stands here. */
  ghost predicate Starts(l: Place, fuel: nat, e: Expr, tail: bool, req: nat, ctr: nat, k: nat) {
    && EvalAt(l, fuel, e).Ok?
    && Ready(l, GenAt(l, e, tail, req, ctr), tail, k)
    && (l.sc.isAction || SkipsSafely(l.img.p, l.sc, e))
    && (tail ==> req == 1)
  }

  /** Running the code of e from here computes the word x, which represents the value of e. */
  ghost predicate Simulates(
    l: Place, fuel: nat, e: Expr, tail: bool, req: nat, ctr: nat, stk': seq<Word>, x: Word)
    requires EvalAt(l, fuel, e).Ok?
  {
    && Rep(l.img.p, l.img.code.labels, x, EvalAt(l, fuel, e).val)
    && Computes(l, tail, l.pos + |GenAt(l, e, tail, req, ctr).code|,
                EvalAt(l, fuel, e).env, EvalAt(l, fuel, e).world, stk',
                if Produced(e, req) == 1 then [x] else [])
  }

  /** The main theorem: whenever e evaluates, its code run on any stack whose frame represents the
      environment leaves the words below the frame and above it alone, makes the frame represent
      the new environment, performs the same actions, and pushes a representation of the value
      (nothing for an assignment asked for no value). In a tail position it returns that word to
      the caller of the frame instead. */
  lemma {:induction false} Correct(l: Place, fuel: nat, e: Expr, tail: bool, req: nat, ctr: nat, k: nat)
    returns (stk': seq<Word>, x: Word)
    requires Starts(l, fuel, e, tail, req, ctr, k)
    ensures Simulates(l, fuel, e, tail, req, ctr, stk', x)
    decreases fuel, 0, e, 3
  {
    hide Computes, Embedded, Gen, Eval, Good, Rep, RepEnv;
    if !e.Assign? { ReqFree(l, e, tail, req, ctr); }
    match e
    case Group(_) => stk', x := CorrectGroupExpr(l, fuel, e, tail, ctr, k);
    case Switch(_, _) => stk', x := CorrectSwitch(l, fuel, e, tail, ctr, k);
    case Call(_, _) => stk', x := CorrectCall(l, fuel, e, tail, ctr, k);
    case CallDyn(_, _, _) => stk', x := CorrectCallDyn(l, fuel, e, tail, ctr, k);
    case CallSelf(_) => stk', x := CorrectCallSelf(l, fuel, e, tail, ctr, k);
    case _ =>
      TailFree(l, e, req, ctr);
      stk', x := CorrectPlain(l, fuel, e, req, ctr);
      if tail { FinishHere(l, fuel, e, ctr, stk', x, k); }
  }

  lemma ReqFree(l: Place, e: Expr, tail: bool, req: nat, ctr: nat)
    requires !e.Assign?
    ensures GenAt(l, e, tail, req, ctr) == GenAt(l, e, tail, 1, ctr)
  {}

  lemma TailFree(l: Place, e: Expr, req: nat, ctr: nat)
    requires !e.Group? && !e.Switch? && !e.Call? && !e.CallDyn? && !e.CallSelf?
    ensures GenAt(l, e, true, req, ctr) == GenAt(l, e, false, req, ctr)
  {}

  /** A tail position whose code does not depend on the tail flag. */
  lemma FinishHere(l: Place, fuel: nat, e: Expr, ctr: nat, stk': seq<Word>, x: Word, k: nat)
    requires Starts(l, fuel, e, true, 1, ctr, k) && Simulates(l, fuel, e, false, 1, ctr, stk', x)
    requires GenAt(l, e, true, 1, ctr) == GenAt(l, e, false, 1, ctr)
    ensures Simulates(l, fuel, e, true, 1, ctr, stk', x)
  {
    hide Gen, Eval;
    Finish(l, l.pos + |GenAt(l, e, true, 1, ctr).code|, EvalAt(l, fuel, e).env, EvalAt(l, fuel, e).world,
           stk', x, k);
  }

  /** The expressions whose code does not depend on the tail flag. */
  lemma {:induction false} CorrectPlain(l: Place, fuel: nat, e: Expr, req: nat, ctr: nat)
    returns (stk': seq<Word>, x: Word)
    requires !e.Group? && !e.Switch? && !e.Call? && !e.CallDyn? && !e.CallSelf?
    requires Starts(l, fuel, e, false, req, ctr, 0)
    ensures Simulates(l, fuel, e, false, req, ctr, stk', x)
    decreases fuel, 0, e, 1
  {
    hide Computes, Embedded, Ready, IsTagUnion, UnionIsNullableStruct;
    match e
    case LitBool(_) | LitInt(_) => stk', x := CorrectLit(l, fuel, e, req, ctr);
    case LitFunc(_) => stk', x := CorrectLitFunc(l, fuel, e, req, ctr);
    case ConstRef(_) => stk', x := CorrectConst(l, fuel, e, req, ctr);
    case Assign(_, _) => stk', x := CorrectAssign(l, fuel, e, req, ctr);
    case Closure(_, _) => stk', x := CorrectClosure(l, fuel, e, ctr);
    case Field(_, _, _) => stk', x := CorrectField(l, fuel, e, ctr);
    case UnionCheck(_, _, _) => stk', x := CorrectUnionCheck(l, fuel, e, ctr);
    case UnionGet(_, _, _, _) =>
      if UnionIsNullableStruct(l.img.p, e.utype) {
        stk', x := CorrectUnionGetNullable(l, fuel, e, ctr);
      } else {
        stk', x := CorrectUnionGet(l, fuel, e, ctr);
      }
  }

  /** Code that is a single instruction pushing x. */
  lemma Single(l: Place, s: Seg, x: Word)
    requires Ready(l, s, false, 0) && |s.code| == 1
    requires Exec(l.img.code, l.State(), s.code[0]) == Running(l.pos + 1, l.stk + [x], l.home, l.w)
    ensures Computes(l, false, l.pos + 1, l.env, l.w, l.stk, [x])
  {
    assert l.img.code.instrs[l.pos..l.pos + 1][0] == s.code[0];
    assert l.stk + [] == l.stk && [] + [x] == [x];
    Begin(l);
    ThenPush(l, l.pos, s.code[0], l.env, l.w, l.stk, [], x);
  }

  lemma {:induction false} CorrectLit(l: Place, fuel: nat, e: Expr, req: nat, ctr: nat)
    returns (stk': seq<Word>, x: Word)
    requires e.LitBool? || e.LitInt?
    requires Starts(l, fuel, e, false, req, ctr, 0)
    ensures Simulates(l, fuel, e, false, req, ctr, stk', x)
  {
    stk', x := l.stk, WInt(if e.LitInt? then e.i else Bool(e.b));
    Single(l, GenAt(l, e, false, req, ctr), x);
  }

  lemma {:induction false} CorrectLitFunc(l: Place, fuel: nat, e: Expr, req: nat, ctr: nat)
    returns (stk': seq<Word>, x: Word)
    requires e.LitFunc? && Starts(l, fuel, e, false, req, ctr, 0)
    ensures Simulates(l, fuel, e, false, req, ctr, stk', x)
  {
    assert Linked(l.img, e.func);
    stk', x := l.stk, WIp(l.img.code.labels[FuncLabel(e.func)]);
    Single(l, GenAt(l, e, false, req, ctr), x);
  }

  lemma {:induction false} CorrectConst(l: Place, fuel: nat, e: Expr, req: nat, ctr: nat)
    returns (stk': seq<Word>, x: Word)
    requires e.ConstRef? && Starts(l, fuel, e, false, req, ctr, 0)
    ensures Simulates(l, fuel, e, false, req, ctr, stk', x)
  {
    stk', x := l.stk, l.stk[l.home + ConstOffset(l.sc.consts, e.id)];
    Single(l, GenAt(l, e, false, req, ctr), x);
  }

  /** The plain code of a subexpression, run first. */
  lemma {:induction false} First(l: Place, fuel: nat, e: Expr, req: nat, ctr: nat, more: seq<Instr>)
    returns (stk': seq<Word>, x: Word)
    requires EvalAt(l, fuel, e).Ok?
    requires l.Valid() && Embedded(l.img.code, l.pos, GenAt(l, e, false, req, ctr).Emit(more))
    requires l.sc.isAction || SkipsSafely(l.img.p, l.sc, e)
    ensures Simulates(l, fuel, e, false, req, ctr, stk', x)
    ensures Has(l.img.code, l.pos + |GenAt(l, e, false, req, ctr).code|, more)
    decreases fuel, 0, e, 4
  {
    EmbeddedEmit(l.img.code, l.pos, GenAt(l, e, false, req, ctr), more);
    stk', x := Correct(l, fuel, e, false, req, ctr, 0);
  }

  lemma {:induction false} CorrectAssign(l: Place, fuel: nat, e: Expr, req: nat, ctr: nat)
    returns (stk': seq<Word>, x: Word)
    requires e.Assign? && Starts(l, fuel, e, false, req, ctr, 0)
    ensures Simulates(l, fuel, e, false, req, ctr, stk', x)
    decreases fuel, 0, e, 0
  {
    hide Computes, Embedded, Rep, Good;
    var r := EvalAt(l, fuel, e.init);
    var store := StackStore(ConstOffset(l.sc.consts, e.id));
    var at := l.pos + |GenAt(l, e.init, false, 1, ctr).code|;
    var more := (if req > 0 then [Dup] else []) + [store];
    stk', x := First(l, fuel, e.init, 1, ctr, more);
    stk' := AssignStep(l, at, req > 0, r.env, r.world, stk', x, e.id, r.val);
  }

  /** The topmost word is stored; a copy of it stays when the value is wanted. */
  lemma AssignStep(
    l: Place, at: nat, keep: bool, env': Env, w': World, stk: seq<Word>, x: Word, id: ConstId, v: Value)
    returns (stk': seq<Word>)
    requires Computes(l, false, at, env', w', stk, [x])
    requires Has(l.img.code, at, (if keep then [Dup] else []) + [StackStore(ConstOffset(l.sc.consts, id))])
    requires l.sc.consts.Has(id) && Rep(l.img.p, l.img.code.labels, x, v)
    ensures Computes(l, false, at + if keep then 2 else 1, env'[id := v], w', stk', if keep then [x] else [])
  {
    hide Computes;
    var dup := if keep then [Dup] else [];
    var store := [StackStore(ConstOffset(l.sc.consts, id))];
    HasSplit(l.img.code, at, dup, store);
    assert [] + [x] == [x];
    assert store[0] == l.img.code.instrs[at + |dup| + 0];
    if keep {
      assert dup[0] == l.img.code.instrs[at + 0];
      ThenDup(l, at, env', w', stk, [], x);
      stk' := ThenStore(l, at + 1, env', w', stk, [x], x, id, v);
    } else {
      stk' := ThenStore(l, at, env', w', stk, [], x, id, v);
    }
  }

  ghost function EvalAllAt(l: Place, fuel: nat, es: seq<Expr>): Result<seq<Value>> {
    EvalAll(l.img.p, l.sc, fuel, es, l.env, l.w)
  }

  /** Operands are evaluated from left to right and end up on the stack in that order. */
  lemma {:induction false} CorrectAll(l: Place, fuel: nat, es: seq<Expr>, ctr: nat)
    returns (stk': seq<Word>, ws: seq<Word>)
    requires EvalAllAt(l, fuel, es).Ok?
    requires l.Valid() && Embedded(l.img.code, l.pos, GenAll(l.img.p, l.sc, es, l.pos, ctr))
    requires l.sc.isAction || AllSkipSafely(l.img.p, l.sc, es)
    ensures |ws| == |es| && RepAll(l.img, ws, EvalAllAt(l, fuel, es).val)
    ensures Computes(l, false, l.pos + |GenAll(l.img.p, l.sc, es, l.pos, ctr).code|,
                     EvalAllAt(l, fuel, es).env, EvalAllAt(l, fuel, es).world, stk', ws)
    decreases fuel, 0, es, 3
  {
    hide Computes, Embedded, Rep, Eval, Gen, Good;
    if es == [] {
      stk', ws := l.stk, [];
      Begin(l);
    } else {
      var s1 := GenAt(l, es[0], false, 1, ctr);
      var s2 := GenAll(l.img.p, l.sc, es[1..], l.pos + |s1.code|, s1.next);
      EmbeddedCat(l.img.code, l.pos, s1, s2);
      var r := EvalAt(l, fuel, es[0]);
      var stk1, x := Correct(l, fuel, es[0], false, 1, ctr, 0);
      var l2 := OnTop(l, l.pos + |s1.code|, r.env, r.world, stk1, [x]);
      var stk2, xs := CorrectAll(l2, fuel, es[1..], s1.next);
      ws := [x] + xs;
      stk' := Unstack(l, l2, l2.pos + |s2.code|, r.env, r.world, stk1, [x],
                      EvalAllAt(l2, fuel, es[1..]).env, EvalAllAt(l2, fuel, es[1..]).world, stk2, xs);
    }
  }

  lemma {:induction false} FirstAll(l: Place, fuel: nat, es: seq<Expr>, ctr: nat, more: seq<Instr>)
    returns (stk': seq<Word>, ws: seq<Word>)
    requires EvalAllAt(l, fuel, es).Ok?
    requires l.Valid() && Embedded(l.img.code, l.pos, GenAll(l.img.p, l.sc, es, l.pos, ctr).Emit(more))
    requires l.sc.isAction || AllSkipSafely(l.img.p, l.sc, es)
    ensures |ws| == |es| && RepAll(l.img, ws, EvalAllAt(l, fuel, es).val)
    ensures Computes(l, false, l.pos + |GenAll(l.img.p, l.sc, es, l.pos, ctr).code|,
                     EvalAllAt(l, fuel, es).env, EvalAllAt(l, fuel, es).world, stk', ws)
    ensures Has(l.img.code, l.pos + |GenAll(l.img.p, l.sc, es, l.pos, ctr).code|, more)
    decreases fuel, 0, es, 4
  {
    hide Computes;
    EmbeddedEmit(l.img.code, l.pos, GenAll(l.img.p, l.sc, es, l.pos, ctr), more);
    stk', ws := CorrectAll(l, fuel, es, ctr);
  }

  // ----- Structures and unions -----

  lemma {:induction false} CorrectField(l: Place, fuel: nat, e: Expr, ctr: nat)
    returns (stk': seq<Word>, x: Word)
    requires e.Field? && Starts(l, fuel, e, false, 1, ctr, 0)
    ensures Simulates(l, fuel, e, false, 1, ctr, stk', x)
    decreases fuel, 0, e, 0
  {
    hide Computes, Embedded, Rep, Good, FieldInstrs;
    var r := EvalAt(l, fuel, e.lhs);
    var s;
    stk', s := First(l, fuel, e.lhs, 1, ctr, FieldInstrs(l.img.p, e.stype, e.index));
    var at := l.pos + |GenAt(l, e.lhs, false, 1, ctr).code|;
    x := FieldStep(l, at, r.env, r.world, stk', s, r.val, e.stype, e.index);
  }

  lemma FieldStep(
    l: Place, at: nat, env': Env, w': World, stk': seq<Word>, s: Word, v: Value, t: TypeId, index: nat)
    returns (x: Word)
    requires Good(l.img) && Computes(l, false, at, env', w', stk', [s])
    requires Has(l.img.code, at, FieldInstrs(l.img.p, t, index))
    requires l.img.p.IsStruct(t) && HasType(l.img.p, v, t) && index < |v.fields|
    requires Rep(l.img.p, l.img.code.labels, s, v)
    ensures Rep(l.img.p, l.img.code.labels, x, v.fields[index])
    ensures Computes(l, false, at + |FieldInstrs(l.img.p, t, index)|, env', w', stk', [x])
  {
    hide Computes, Linked;
    x := s;
    if |v.fields| > 1 {
      assert FieldInstrs(l.img.p, t, index)[0] == l.img.code.instrs[at + 0];
      assert [] + [s] == [s];
      ThenField(l, at, index, env', w', stk', [], s);
      x := s.fields[index];
      assert [] + [x] == [x];
    }
  }

  lemma {:induction false} CorrectUnionCheck(l: Place, fuel: nat, e: Expr, ctr: nat)
    returns (stk': seq<Word>, x: Word)
    requires e.UnionCheck? && Starts(l, fuel, e, false, 1, ctr, 0)
    ensures Simulates(l, fuel, e, false, 1, ctr, stk', x)
    decreases fuel, 0, e, 0
  {
    hide Computes, Embedded, Rep, Good, UnionTest, HasType;
    var r := EvalAt(l, fuel, e.lhs);
    var at := l.pos + |GenAt(l, e.lhs, false, 1, ctr).code|;
    var u;
    stk', u := First(l, fuel, e.lhs, 1, ctr, UnionTest(l.img.p, e.utype, e.target));
    x := TestAlone(l, at, r.env, r.world, stk', u, r.val, e.utype, e.target);
  }

  lemma TestAlone(
    l: Place, at: nat, env': Env, w': World, stk': seq<Word>, u: Word, v: Value, ut: TypeId, t: TypeId)
    returns (x: Word)
    requires Computes(l, false, at, env', w', stk', [u])
    requires Has(l.img.code, at, UnionTest(l.img.p, ut, t))
    requires l.img.p.IsUnion(ut) && HasType(l.img.p, v, ut) && t in l.img.p.types[ut].members
    requires Rep(l.img.p, l.img.code.labels, u, v)
    ensures v.VUnion? && x == WInt(Bool(v.member == t)) && Rep(l.img.p, l.img.code.labels, x, VInt(Bool(v.member == t)))
    ensures Computes(l, false, at + |UnionTest(l.img.p, ut, t)|, env', w', stk', [x])
  {
    hide Computes;
    x := WInt(Bool(v.member == t));
    assert [] + [u] == [u] && [] + [x] == [x];
    TestMember(l, at, env', w', stk', [], u, v, ut, t);
  }

  /** The frame forgets a constant, or learns one that any word represents. */
  lemma Forget(
    l: Place, at: nat, env': Env, env2: Env, w': World, stk': seq<Word>, xs: seq<Word>, id: ConstId)
    requires Computes(l, false, at, env', w', stk', xs) && l.sc.consts.Has(id)
    requires forall y | y in env2 && y != id :: y in env' && env2[y] == env'[y]
    requires id in env2 ==>
               forall w :: Rep(l.img.p, l.img.code.labels, w, env2[id])
    ensures Computes(l, false, at, env2, w', stk', xs)
  {}

  /** For a tag the constant is not stored, for a struct it is stored before the test. */
  lemma {:induction false} CorrectUnionGetNullable(l: Place, fuel: nat, e: Expr, ctr: nat)
    returns (stk': seq<Word>, x: Word)
    requires e.UnionGet? && UnionIsNullableStruct(l.img.p, e.utype)
    requires Starts(l, fuel, e, false, 1, ctr, 0)
    ensures Simulates(l, fuel, e, false, 1, ctr, stk', x)
    decreases fuel, 0, e, 0
  {
    hide Computes, Embedded, Rep, Good, UnionTest, HasType, UnionIsNullableStruct;
    var r := EvalAt(l, fuel, e.lhs);
    var at := l.pos + |GenAt(l, e.lhs, false, 1, ctr).code|;
    var more := (if StructIsTagType(l.img.p, e.target) then [] else [Dup, StackStore(ConstOffset(l.sc.consts, e.id))])
                + UnionTest(l.img.p, e.utype, e.target);
    var u;
    stk', u := First(l, fuel, e.lhs, 1, ctr, more);
    stk', x := GetNullable(l, at, r.env, r.world, stk', u, r.val, e);
  }

  lemma GetNullable(l: Place, at: nat, env': Env, w': World, stk: seq<Word>, u: Word, v: Value, e: Expr)
    returns (stk': seq<Word>, x: Word)
    requires e.UnionGet? && UnionIsNullableStruct(l.img.p, e.utype) && l.sc.consts.Has(e.id)
    requires Computes(l, false, at, env', w', stk, [u])
    requires Has(l.img.code, at,
                 (if StructIsTagType(l.img.p, e.target) then [] else [Dup, StackStore(ConstOffset(l.sc.consts, e.id))])
                 + UnionTest(l.img.p, e.utype, e.target))
    requires HasType(l.img.p, v, e.utype) && e.target in l.img.p.types[e.utype].members
    requires Rep(l.img.p, l.img.code.labels, u, v)
    ensures x == WInt(Bool(v.member == e.target)) && Rep(l.img.p, l.img.code.labels, x, VInt(Bool(v.member == e.target)))
    ensures Computes(
              l, false,
              at + (if StructIsTagType(l.img.p, e.target) then 0 else 2) + |UnionTest(l.img.p, e.utype, e.target)|,
              if v.member == e.target then env'[e.id := v.val] else env' - {e.id}, w', stk', [x])
  {
    assert v.VUnion? && v.utype == e.utype;
    hide Computes, Rep, Good, UnionTest, UnionIsNullableStruct;
    var env2 := if v.member == e.target then env'[e.id := v.val] else env' - {e.id};
    var test := UnionTest(l.img.p, e.utype, e.target);
    if StructIsTagType(l.img.p, e.target) {
      assert [] + test == test;
      stk', x := GetTag(l, at, env', env2, w', stk, u, v, e);
    } else {
      stk', x := GetStruct(l, at, env', env2, w', stk, u, v, e);
    }
  }

  lemma GetTag(
    l: Place, at: nat, env': Env, env2: Env, w': World, stk: seq<Word>, u: Word, v: Value, e: Expr)
    returns (stk': seq<Word>, x: Word)
    requires e.UnionGet? && UnionIsNullableStruct(l.img.p, e.utype) && l.sc.consts.Has(e.id)
    requires Computes(l, false, at, env', w', stk, [u])
    requires Has(l.img.code, at, UnionTest(l.img.p, e.utype, e.target))
    requires HasType(l.img.p, v, e.utype) && e.target in l.img.p.types[e.utype].members
    requires Rep(l.img.p, l.img.code.labels, u, v) && StructIsTagType(l.img.p, e.target)
    requires env2 == if v.member == e.target then env'[e.id := v.val] else env' - {e.id}
    ensures x == WInt(Bool(v.member == e.target))
    ensures Computes(l, false, at + |UnionTest(l.img.p, e.utype, e.target)|, env2, w', stk', [x])
  {
    assert v.VUnion? && v.utype == e.utype;
    hide Computes, Rep, UnionTest, UnionIsNullableStruct;
    stk' := stk;
    x := TestAlone(l, at, env', w', stk', u, v, e.utype, e.target);
    if v.member == e.target { TagIsWeightless(l.img.p, l.img.code.labels, v); }
    Forget(l, at + |UnionTest(l.img.p, e.utype, e.target)|, env', env2, w', stk', [x], e.id);
  }

  lemma GetStruct(
    l: Place, at: nat, env': Env, env2: Env, w': World, stk: seq<Word>, u: Word, v: Value, e: Expr)
    returns (stk': seq<Word>, x: Word)
    requires e.UnionGet? && UnionIsNullableStruct(l.img.p, e.utype) && l.sc.consts.Has(e.id)
    requires Computes(l, false, at, env', w', stk, [u])
    requires Has(l.img.code, at,
                 [Dup, StackStore(ConstOffset(l.sc.consts, e.id))] + UnionTest(l.img.p, e.utype, e.target))
    requires HasType(l.img.p, v, e.utype) && e.target in l.img.p.types[e.utype].members
    requires Rep(l.img.p, l.img.code.labels, u, v) && !StructIsTagType(l.img.p, e.target)
    requires env2 == if v.member == e.target then env'[e.id := v.val] else env' - {e.id}
    ensures x == WInt(Bool(v.member == e.target))
    ensures Computes(l, false, at + 2 + |UnionTest(l.img.p, e.utype, e.target)|, env2, w', stk', [x])
  {
    assert v.VUnion? && v.utype == e.utype;
    hide Computes, Rep, UnionTest, UnionIsNullableStruct;
    var pre := [Dup, StackStore(ConstOffset(l.sc.consts, e.id))];
    HasSplit(l.img.code, at, pre, UnionTest(l.img.p, e.utype, e.target));
    assert pre[0] == l.img.code.instrs[at + 0] && pre[1] == l.img.code.instrs[at + 1];
    assert [] + [u] == [u];
    ThenDup(l, at, env', w', stk, [], u);
    stk' := StoreMaybe(l, at + 1, env', env2, w', stk, u, v, e);
    x := TestAlone(l, at + 2, env2, w', stk', u, v, e.utype, e.target);
  }

  /** Any word represents the tag of a nullable union. */
  lemma TagIsWeightless(p: Program, labels: map<Label, nat>, v: Value)
    requires v.VUnion? && HasType(p, v, v.utype) && StructIsTagType(p, v.member)
    ensures forall w :: Rep(p, labels, w, v.val)
  {
    forall w ensures Rep(p, labels, w, v.val) {}
  }

  /** Storing the union itself: right when it holds the member, and the constant is unbound otherwise. */
  lemma StoreMaybe(
    l: Place, at: nat, env': Env, env2: Env, w': World, stk: seq<Word>, u: Word, v: Value, e: Expr)
    returns (stk': seq<Word>)
    requires e.UnionGet? && UnionIsNullableStruct(l.img.p, e.utype) && l.sc.consts.Has(e.id)
    requires !StructIsTagType(l.img.p, e.target) && v.VUnion? && v.utype == e.utype
    requires env2 == if v.member == e.target then env'[e.id := v.val] else env' - {e.id}
    requires Computes(l, false, at, env', w', stk, [u] + [u])
    requires at < |l.img.code.instrs| && l.img.code.instrs[at] == StackStore(ConstOffset(l.sc.consts, e.id))
    requires Rep(l.img.p, l.img.code.labels, u, v)
    ensures Computes(l, false, at + 1, env2, w', stk', [u])
  {
    hide Computes;
    if v.member == e.target {
      stk' := ThenStore(l, at, env', w', stk, [u], u, e.id, v.val);
    } else {
      // Any value that u represents will do: the constant is forgotten right away.
      stk' := ThenStore(l, at, env', w', stk, [u], u, e.id, v);
      Forget(l, at + 1, env'[e.id := v], env2, w', stk', [u], e.id);
    }
  }

  lemma {:induction false} CorrectUnionGet(l: Place, fuel: nat, e: Expr, ctr: nat)
    returns (stk': seq<Word>, x: Word)
    requires e.UnionGet? && !UnionIsNullableStruct(l.img.p, e.utype)
    requires Starts(l, fuel, e, false, 1, ctr, 0)
    ensures Simulates(l, fuel, e, false, 1, ctr, stk', x)
    decreases fuel, 0, e, 0
  {
    hide Computes, Embedded, Rep, Good, HasType, UnionTest, GetArms, GetMember, RepEnv, Eval, Gen, SkipsSafely, GenAt, EvalAt, Has, ConstOffset;
    var r, s1 := UnionGetUnfold(l, fuel, e, ctr);
    var test, slot, at := UnionTest(l.img.p, e.utype, e.target), ConstOffset(l.sc.consts, e.id), l.pos + |s1.code|;
    var equal, end := Generated(UnionTypeEqual, s1.next), Generated(UnionGetEnd, s1.next + 1);
    MemberPlaced(l.img.code, l.pos, s1, test, slot);
    var u;
    stk', u := First(l, fuel, e.lhs, 1, ctr, [Dup] + test + GetArms(equal, end, slot));
    stk', x := GetOrdinary(l, at, r.env, r.world, stk', u, r.val, e, equal, end);
  }

  lemma UnionGetUnfold(l: Place, fuel: nat, e: Expr, ctr: nat) returns (r: Result<Value>, s1: Seg)
    requires e.UnionGet? && !UnionIsNullableStruct(l.img.p, e.utype) && EvalAt(l, fuel, e).Ok?
    requires l.sc.isAction || SkipsSafely(l.img.p, l.sc, e)
    ensures l.sc.isAction || SkipsSafely(l.img.p, l.sc, e.lhs)
    ensures r == EvalAt(l, fuel, e.lhs) && r.Ok? && l.sc.consts.Has(e.id)
    ensures l.img.p.IsUnion(e.utype) && HasType(l.img.p, r.val, e.utype) && e.target in l.img.p.types[e.utype].members
    ensures r.val.VUnion?
    ensures EvalAt(l, fuel, e) == Ok(VInt(Bool(r.val.member == e.target)),
                                     if r.val.member == e.target then r.env[e.id := r.val.val] else r.env - {e.id}, r.world)
    ensures s1 == GenAt(l, e.lhs, false, 1, ctr) && |UnionTest(l.img.p, e.utype, e.target)| == 3
    ensures GenAt(l, e, false, 1, ctr)
         == GetMember(s1, UnionTest(l.img.p, e.utype, e.target), ConstOffset(l.sc.consts, e.id), l.pos + |s1.code|)
  {
    r, s1 := EvalAt(l, fuel, e.lhs), GenAt(l, e.lhs, false, 1, ctr);
  }

  /** Where the labels of a union get are. */
  lemma MemberPlaced(c: Code, pos: nat, s1: Seg, test: seq<Instr>, slot: nat)
    requires Embedded(c, pos, GetMember(s1, test, slot, pos + |s1.code|))
    ensures var equal, end, at := Generated(UnionTypeEqual, s1.next), Generated(UnionGetEnd, s1.next + 1), pos + |s1.code|;
            && |GetMember(s1, test, slot, at).code| == |s1.code| + |test| + 8
            && Embedded(c, pos, s1.Emit([Dup] + test + GetArms(equal, end, slot)))
            && equal in c.labels && c.labels[equal] == at + |test| + 5
            && end in c.labels && c.labels[end] == at + |test| + 8
  {
    hide Embedded;
    var equal, end, at := Generated(UnionTypeEqual, s1.next), Generated(UnionGetEnd, s1.next + 1), pos + |s1.code|;
    var s2 := s1.Emit([Dup] + test + GetArms(equal, end, slot));
    var s3 := s2.Declare(equal, at + |test| + 5).Declare(end, at + |test| + 8);
    EmbeddedNext(c, pos, s3, s1.next + 2);
    EmbeddedDeclare(c, pos, s2.Declare(equal, at + |test| + 5), end, at + |test| + 8);
    EmbeddedDeclare(c, pos, s2, equal, at + |test| + 5);
  }

  lemma EmbeddedNext(c: Code, pos: nat, s: Seg, next: nat)
    ensures Embedded(c, pos, s.(next := next)) <==> Embedded(c, pos, s)
  {}

  lemma GetOrdinary(
    l: Place, at: nat, env': Env, w': World, stk: seq<Word>, u: Word, v: Value, e: Expr, equal: Label,
    end: Label)
    returns (stk': seq<Word>, x: Word)
    requires e.UnionGet? && !UnionIsNullableStruct(l.img.p, e.utype) && l.sc.consts.Has(e.id)
    requires Computes(l, false, at, env', w', stk, [u])
    requires Has(l.img.code, at, [Dup] + UnionTest(l.img.p, e.utype, e.target) + GetArms(equal, end, ConstOffset(l.sc.consts, e.id)))
    requires equal in l.img.code.labels && l.img.code.labels[equal] == at + 8
    requires end in l.img.code.labels && l.img.code.labels[end] == at + 11
    requires l.img.p.IsUnion(e.utype) && HasType(l.img.p, v, e.utype)
    requires e.target in l.img.p.types[e.utype].members
    requires Rep(l.img.p, l.img.code.labels, u, v)
    ensures x == WInt(Bool(v.member == e.target)) && Rep(l.img.p, l.img.code.labels, x, VInt(Bool(v.member == e.target)))
    ensures Computes(l, false, at + 11,
                     if v.member == e.target then env'[e.id := v.val] else env' - {e.id}, w', stk', [x])
  {
    hide Computes, Reaches, UnionIsNullableStruct, Frame, IndexOf, UnionDiscriminant, Dead, ConstOffset, Run, SkippedDecls, GetArms;
    var c, test, arms := l.img.code, UnionTest(l.img.p, e.utype, e.target), GetArms(equal, end, ConstOffset(l.sc.consts, e.id));
    HasSplit(c, at, [Dup] + test, arms);
    HasSplit(c, at, [Dup], test);
    assert [Dup][0] == c.instrs[at + 0];
    x := WInt(Bool(v.member == e.target));
    assert [] + [u] == [u];
    ThenDup(l, at, env', w', stk, [], u);
    TestMember(l, at + 1, env', w', stk, [u], u, v, e.utype, e.target);
    assert |test| == 3;
    ArmsStand(c, at + 4, equal, end, ConstOffset(l.sc.consts, e.id));
    ThenJumpIf(l, at + 4, env', w', stk, [u], Bool(v.member == e.target));
    if v.member == e.target {
      stk' := GetTaken(l, at, env', w', stk, u, v, e);
    } else {
      stk' := stk;
      GetMissed(l, at, env', w', stk, u, e.id, end);
    }
  }

  lemma ArmsStand(c: Code, at: nat, equal: Label, end: Label, slot: nat)
    requires Has(c, at, GetArms(equal, end, slot))
    ensures at + 7 <= |c.instrs|
    ensures c.instrs[at] == JumpIf(equal) && c.instrs[at + 1] == Instr.Pop && c.instrs[at + 2] == LoadLitInt(0)
    ensures c.instrs[at + 3] == Jump(end) && c.instrs[at + 4] == StructLoadField(1)
    ensures c.instrs[at + 5] == StackStore(slot) && c.instrs[at + 6] == LoadLitInt(1)
  {
    var arms := GetArms(equal, end, slot);
    assert c.instrs[at + 0] == arms[0] && c.instrs[at + 1] == arms[1] && c.instrs[at + 2] == arms[2];
    assert c.instrs[at + 3] == arms[3] && c.instrs[at + 4] == arms[4] && c.instrs[at + 5] == arms[5];
    assert c.instrs[at + 6] == arms[6];
  }

  /** The union holds the member: it is stored. */
  lemma GetTaken(l: Place, at: nat, env': Env, w': World, stk: seq<Word>, u: Word, v: Value, e: Expr) returns (stk': seq<Word>)
    requires e.UnionGet? && !UnionIsNullableStruct(l.img.p, e.utype) && l.sc.consts.Has(e.id)
    requires Computes(l, false, at + 8, env', w', stk, [u]) && HasType(l.img.p, v, e.utype) && l.img.p.IsUnion(e.utype)
    requires Rep(l.img.p, l.img.code.labels, u, v) && v.member == e.target && at + 11 <= |l.img.code.instrs|
    requires l.img.code.instrs[at + 8] == StructLoadField(1) && l.img.code.instrs[at + 10] == LoadLitInt(1)
    requires l.img.code.instrs[at + 9] == StackStore(ConstOffset(l.sc.consts, e.id))
    ensures Computes(l, false, at + 11, env'[e.id := v.val], w', stk', [WInt(1)])
  {
    hide Computes, UnionIsNullableStruct, UnionDiscriminant, ConstOffset;
    assert [] + [u] == [u] && [] + [WInt(1)] == [WInt(1)];
    ThenField(l, at + 8, 1, env', w', stk, [], u);
    stk' := ThenStore(l, at + 9, env', w', stk, [], u.fields[1], e.id, v.val);
    ThenLoadInt(l, at + 10, 1, env'[e.id := v.val], w', stk', []);
  }

  /** It does not: the constant is forgotten. */
  lemma GetMissed(l: Place, at: nat, env': Env, w': World, stk: seq<Word>, u: Word, id: ConstId, end: Label)
    requires Computes(l, false, at + 5, env', w', stk, [u]) && l.sc.consts.Has(id) && at + 8 <= |l.img.code.instrs|
    requires l.img.code.instrs[at + 5] == Instr.Pop && l.img.code.instrs[at + 6] == LoadLitInt(0)
    requires l.img.code.instrs[at + 7] == Jump(end) && end in l.img.code.labels && l.img.code.labels[end] == at + 11
    ensures Computes(l, false, at + 11, env' - {id}, w', stk, [WInt(0)])
  {
    hide Computes;
    assert [] + [u] == [u] && [] + [WInt(0)] == [WInt(0)];
    ThenPop(l, at + 5, env', w', stk, [], u);
    ThenLoadInt(l, at + 6, 0, env', w', stk, []);
    ThenJump(l, at + 7, env', w', stk, [WInt(0)]);
    Forget(l, at + 11, env', env' - {id}, w', stk, [WInt(0)], id);
  }

  lemma {:induction false} CorrectClosure(l: Place, fuel: nat, e: Expr, ctr: nat)
    returns (stk': seq<Word>, x: Word)
    requires e.Closure? && Starts(l, fuel, e, false, 1, ctr, 0)
    ensures Simulates(l, fuel, e, false, 1, ctr, stk', x)
    decreases fuel, 0, e, 0
  {
    hide GenAt, ApplyBin, EvalAt, Intrinsic, Repeat, LeadsToRet, Return, ScopeOk, Frame, GenFunc;
    assert EvalAt(l, fuel, e).Ok? && l.Valid() && Embedded(l.img.code, l.pos, GenAt(l, e, false, 1, ctr));
    hide Computes, Embedded, Rep, Good, RepAll, RepEnv, Eval, Gen, EvalAll, GenAll, SkipsSafely, AllSkipSafely;
    var r, s1 := EvalAllAt(l, fuel, e.boundArgs), GenAll(l.img.p, l.sc, e.boundArgs, l.pos, ctr);
    ClosureUnfold(l, fuel, e, ctr);
    var ws;
    stk', ws := FirstAll(l, fuel, e.boundArgs, ctr, [LoadLitIp(FuncLabel(e.func)), Instr.MakeStruct(|e.boundArgs| + 1)]);
    x := ClosureStep(l, l.pos + |s1.code|, r.env, r.world, stk', ws, e.func, r.val);
  }

  lemma ClosureUnfold(l: Place, fuel: nat, e: Expr, ctr: nat)
    requires e.Closure? && EvalAt(l, fuel, e).Ok? && Good(l.img)
    requires l.sc.isAction || SkipsSafely(l.img.p, l.sc, e)
    ensures l.sc.isAction || AllSkipSafely(l.img.p, l.sc, e.boundArgs)
    ensures var r := EvalAllAt(l, fuel, e.boundArgs);
            r.Ok? && EvalAt(l, fuel, e) == Ok(VFunc(e.func, r.val), r.env, r.world)
    ensures FuncLabel(e.func) in l.img.code.labels
    ensures GenAt(l, e, false, 1, ctr) == GenAll(l.img.p, l.sc, e.boundArgs, l.pos, ctr).Emit(
                                            [LoadLitIp(FuncLabel(e.func)), Instr.MakeStruct(|e.boundArgs| + 1)])
  {
    assert FuncFits(l.img.p, e.func) && Linked(l.img, e.func);
    hide Good, Linked;
  }

  lemma ClosureStep(
    l: Place, at: nat, env': Env, w': World, stk': seq<Word>, ws: seq<Word>, f: FuncId, vals: seq<Value>)
    returns (x: Word)
    requires Computes(l, false, at, env', w', stk', ws) && RepAll(l.img, ws, vals)
    requires FuncLabel(f) in l.img.code.labels
    requires Has(l.img.code, at, [LoadLitIp(FuncLabel(f)), Instr.MakeStruct(|vals| + 1)])
    ensures Rep(l.img.p, l.img.code.labels, x, VFunc(f, vals))
    ensures Computes(l, false, at + 2, env', w', stk', [x])
  {
    hide Computes;
    var ip := WIp(l.img.code.labels[FuncLabel(f)]);
    var more := [LoadLitIp(FuncLabel(f)), Instr.MakeStruct(|vals| + 1)];
    assert l.img.code.instrs[at + 0] == more[0] && l.img.code.instrs[at + 1] == more[1];
    ThenPush(l, at, LoadLitIp(FuncLabel(f)), env', w', stk', ws, ip);
    ThenMakeStruct(l, at + 1, env', w', stk', ws + [ip]);
    x := WStruct(ws + [ip]);
  }

  // ----- Groups -----

  lemma {:induction false} CorrectGroupExpr(l: Place, fuel: nat, e: Expr, tail: bool, ctr: nat, k: nat)
    returns (stk': seq<Word>, x: Word)
    requires e.Group? && Starts(l, fuel, e, tail, 1, ctr, k)
    ensures Simulates(l, fuel, e, tail, 1, ctr, stk', x)
    decreases fuel, 0, e, 1
  {
    hide Computes, Embedded, Good, Rep, RepEnv, LeadsToRet, HasCaller;
    stk', x := CorrectGroup(l, fuel, e.exprs, tail, ctr, k);
  }

  /** Every value but the last is popped again. */
  lemma {:induction false} CorrectGroup(l: Place, fuel: nat, es: seq<Expr>, tail: bool, ctr: nat, k: nat)
    returns (stk': seq<Word>, x: Word)
    requires es != [] && EvalAllAt(l, fuel, es).Ok?
    requires Ready(l, GenGroup(l.img.p, l.sc, es, tail, l.pos, ctr), tail, k)
    requires l.sc.isAction || AllSkipSafely(l.img.p, l.sc, es)
    ensures Rep(l.img.p, l.img.code.labels, x, EvalAllAt(l, fuel, es).val[|es| - 1])
    ensures Computes(l, tail, l.pos + |GenGroup(l.img.p, l.sc, es, tail, l.pos, ctr).code|,
                     EvalAllAt(l, fuel, es).env, EvalAllAt(l, fuel, es).world, stk', [x])
    decreases fuel, 0, es, 3
  {
    hide Computes, Embedded, Rep, Eval, Gen, Good, HasCaller, LeadsToRet;
    var r := EvalAt(l, fuel, es[0]);
    var r2 := EvalAll(l.img.p, l.sc, fuel, es[1..], r.env, r.world);
    if |es| == 1 {
      assert r2 == Ok([], r.env, r.world);
      stk', x := Correct(l, fuel, es[0], tail, 1, ctr, k);
    } else {
      var s0 := GenAt(l, es[0], false, 0, ctr);
      var s1 := s0.Emit(Repeat(Instr.Pop, Produced(es[0], 0)));
      var at := l.pos + |s1.code|;
      var s2 := GenGroup(l.img.p, l.sc, es[1..], tail, at, s1.next);
      EmbeddedCat(l.img.code, l.pos, s1, s2);
      var stk1 := GroupFirst(l, fuel, es[0], ctr);
      var l2 := OnTop(l, at, r.env, r.world, stk1, []);
      ReadyOnTop(l, l2, s2, tail, r.env, r.world, stk1, k);
      var stk2;
      stk2, x := CorrectGroup(l2, fuel, es[1..], tail, s1.next, k);
      stk' := Chain(l, l2, tail, at + |s2.code|, r.env, r.world, stk1, r2.env, r2.world, stk2, [x]);
    }
  }

  /** An expression of a group whose value, if it leaves one, is popped. */
  lemma {:induction false} GroupFirst(l: Place, fuel: nat, e: Expr, ctr: nat) returns (stk': seq<Word>)
    requires EvalAt(l, fuel, e).Ok? && l.Valid()
    requires Embedded(l.img.code, l.pos, GenAt(l, e, false, 0, ctr).Emit(Repeat(Instr.Pop, Produced(e, 0))))
    requires l.sc.isAction || SkipsSafely(l.img.p, l.sc, e)
    ensures Computes(l, false, l.pos + |GenAt(l, e, false, 0, ctr).code| + Produced(e, 0),
                     EvalAt(l, fuel, e).env, EvalAt(l, fuel, e).world, stk', [])
    decreases fuel, 0, e, 5
  {
    hide Computes, Embedded, Rep, Eval, Gen, Good;
    var r := EvalAt(l, fuel, e);
    var pops := Repeat(Instr.Pop, Produced(e, 0));
    var at := l.pos + |GenAt(l, e, false, 0, ctr).code|;
    var y;
    stk', y := First(l, fuel, e, 0, ctr, pops);
    if Produced(e, 0) == 1 {
      assert pops[0] == l.img.code.instrs[at + 0];
      assert [] + [y] == [y];
      ThenPop(l, at, r.env, r.world, stk', [], y);
    }
  }

  /** The next piece of code, after a computation that leaves no words. */
  lemma ReadyOnTop(
    l: Place, l2: Place, s2: Seg, tail: bool, env1: Env, w1: World, stk1: seq<Word>, k: nat)
    requires l.Valid() && l2.Valid() && Computes(l, false, l2.pos, env1, w1, stk1, [])
    requires l2 == l.(pos := l2.pos, stk := stk1 + [], env := env1, w := w1)
    requires Embedded(l.img.code, l2.pos, s2)
    requires tail ==> HasCaller(l.stk, l.home) && LeadsToRet(l.img.code, l2.pos + |s2.code|, k)
    ensures Ready(l2, s2, tail, k)
  {
    assert stk1 + [] == stk1;
    if tail { FrameReturned(l.stk, stk1, l.home, |l.sc.consts.All()|, WNull, w1); }
  }

  // ----- Calls -----

  /** A user function, entered with its arguments as the whole frame, returns a representation of
      its value to its caller. */
  lemma {:induction false} CorrectFunc(
    img: Image, fuel: nat, f: FuncId, vals: seq<Value>, stk: seq<Word>, home: nat, w: World)
    returns (x: Word)
    requires Good(img) && img.p.IsUser(f) && Invoke(img.p, fuel, f, vals, w).Ok?
    requires HasCaller(stk, home) && RepAll(img, stk[home..], vals)
    ensures FuncLabel(f) in img.code.labels
    ensures Rep(img.p, img.code.labels, x, Invoke(img.p, fuel, f, vals, w).val)
    ensures Reaches(img.code, Running(img.code.labels[FuncLabel(f)], stk, home, w),
                    Returned(stk, home, x, Invoke(img.p, fuel, f, vals, w).world))
    decreases fuel, 1
  {
    var r := Invoke(img.p, fuel, f, vals, w);
    var l, ctr := EnterFunc(img, fuel, f, vals, stk, home, w);
    StartsTail(l, fuel, img.p.funcs[f].kind.body, ctr);
    hide Rep, RepAll, Gen, Good, Eval, Invoke, Starts, Returned, HasCaller, Embedded;
    var stk3;
    stk3, x := Correct(l, fuel, img.p.funcs[f].kind.body, true, 1, ctr, 0);
    SameReturn(stk, l.stk, home, x, r.world);
    ReachTrans(img.code, Running(img.code.labels[FuncLabel(f)], stk, home, w), l.State(), Returned(stk, home, x, r.world));
  }

  /** Reserving the locals leads to the start of the body. */
  lemma EnterFunc(
    img: Image, fuel: nat, f: FuncId, vals: seq<Value>, stk: seq<Word>, home: nat, w: World)
    returns (l: Place, ctr: nat)
    requires Good(img) && img.p.IsUser(f) && |vals| == |img.p.funcs[f].kind.consts.Inputs()|
    requires HasCaller(stk, home) && RepAll(img, stk[home..], vals)
    ensures l.img == img && l.home == home && FuncLabel(f) in img.code.labels && l.sc == FuncScope(img.p, f)
    ensures l.env == BindInputs(img.p.funcs[f].kind.consts.Inputs(), vals) && l.w == w
    ensures Ready(l, GenAt(l, img.p.funcs[f].kind.body, true, 1, ctr), true, 0)
    ensures l.sc.isAction || SkipsSafely(img.p, l.sc, img.p.funcs[f].kind.body)
    ensures EvalAt(l, fuel, img.p.funcs[f].kind.body) == Invoke(img.p, fuel, f, vals, w)
    ensures |stk| <= |l.stk| && l.stk[..home] == stk[..home]
    ensures Reaches(img.code, Running(img.code.labels[FuncLabel(f)], stk, home, w), l.State())
  {
    hide Rep, Gen, Eval, RepEnv, Embedded, ReserveConsts, LeadsToRet, BindInputs, SkipsSafely, Invoke, ScopeOk, FuncScope, HasCaller, Starts, Good, RepAll, Reaches;
    FrameBelow(stk, home);
    var sc, pos, at;
    sc, pos, ctr, at := FuncUnfold(img, fuel, f, vals, w);
    var consts := img.p.funcs[f].kind.consts;
    var stk2 := OpenFrame(img, pos, sc, stk, home, w, vals);
    PrefixKept(stk, stk2, home);
    l := Place(img, sc, at, stk2, home, BindInputs(consts.Inputs(), vals), w);
  }

  lemma FrameBelow(stk: seq<Word>, home: nat)
    requires HasCaller(stk, home)
    ensures home <= |stk|
  {}

  lemma StartsTail(l: Place, fuel: nat, e: Expr, ctr: nat)
    requires Ready(l, GenAt(l, e, true, 1, ctr), true, 0) && EvalAt(l, fuel, e).Ok?
    requires l.sc.isAction || SkipsSafely(l.img.p, l.sc, e)
    ensures Starts(l, fuel, e, true, 1, ctr, 0) && HasCaller(l.stk, l.home)
  {
    hide Gen, Eval, Embedded, LeadsToRet, HasCaller, SkipsSafely, Good, RepEnv, ScopeOk;
  }

  lemma PrefixKept(stk: seq<Word>, stk2: seq<Word>, home: nat)
    requires HasCaller(stk, home) && |stk| <= |stk2| && stk2[..|stk|] == stk
    ensures HasCaller(stk2, home) && stk2[..home] == stk[..home]
  {
    assert stk2[..|stk|][..home] == stk2[..home];
    assert stk2[..|stk|][home - 2] == stk2[home - 2] && stk2[..|stk|][home - 1] == stk2[home - 1];
  }

  /** The code of a function: its locals, its body and a return. */
  lemma FuncUnfold(img: Image, fuel: nat, f: FuncId, vals: seq<Value>, w: World)
    returns (sc: Scope, pos: nat, ctr: nat, at: nat)
    requires Good(img) && img.p.IsUser(f) && |vals| == |img.p.funcs[f].kind.consts.Inputs()|
    ensures FuncLabel(f) in img.code.labels && pos == img.code.labels[FuncLabel(f)]
    ensures sc == FuncScope(img.p, f) && ScopeOk(img.p, sc) && |vals| == |sc.consts.Inputs()|
    ensures sc.consts == img.p.funcs[f].kind.consts
    ensures var kind := img.p.funcs[f].kind;
            var s2 := Gen(img.p, sc, kind.body, true, 1, at, ctr);
            && (sc.isAction || SkipsSafely(img.p, sc, kind.body))
            && Invoke(img.p, fuel, f, vals, w) == Eval(img.p, sc, fuel, kind.body, BindInputs(kind.consts.Inputs(), vals), w)
            && at == pos + |ReserveConsts(kind.consts)| <= |img.code.instrs|
            && img.code.instrs[pos..at] == ReserveConsts(kind.consts)
            && Embedded(img.code, at, s2) && LeadsToRet(img.code, at + |s2.code|, 0)
  {
    assert Linked(img, f) && FuncSkipsSafely(img.p, f);
    BodySkipsSafely(img.p, f);
    hide Gen, Good, Eval;
    var kind := img.p.funcs[f].kind;
    sc, pos, ctr := FuncScope(img.p, f), img.code.labels[FuncLabel(f)], img.ctrs[f];
    var alloc := ReserveConsts(kind.consts);
    at := pos + |alloc|;
    var s1, s2 := Seg(alloc, [Decl(FuncLabel(f), pos)], ctr), Gen(img.p, sc, kind.body, true, 1, at, ctr);
    DynPlaced(img.code, pos, s1, s2, Ret);
  }

  /** Reserving the locals completes a frame that represents the inputs. */
  lemma OpenFrame(
    img: Image, pos: nat, sc: Scope, stk: seq<Word>, home: nat, w: World, vals: seq<Value>)
    returns (stk': seq<Word>)
    requires home <= |stk| && |vals| == |sc.consts.Inputs()| && RepAll(img, stk[home..], vals)
    requires pos + |ReserveConsts(sc.consts)| <= |img.code.instrs|
    requires img.code.instrs[pos..pos + |ReserveConsts(sc.consts)|] == ReserveConsts(sc.consts)
    ensures |stk| <= |stk'| == home + |sc.consts.All()| && stk'[..|stk|] == stk
    ensures RepEnv(img, sc, stk', home, BindInputs(sc.consts.Inputs(), vals))
    ensures Reaches(img.code, Running(pos, stk, home, w), Running(pos + |ReserveConsts(sc.consts)|, stk', home, w))
  {
    var zeros := seq(|sc.consts.locals|, _ => WInt(0));
    stk' := stk + zeros;
    ReachRefl(img.code, Running(pos, stk, home, w));
    if |sc.consts.locals| > 0 {
      assert img.code.instrs[pos..pos + 1][0] == StackAlloc(|sc.consts.locals|);
      ReachStep(img.code, Running(pos, stk, home, w), Running(pos, stk, home, w), StackAlloc(|sc.consts.locals|));
    } else {
      assert stk' == stk;
    }
    var ids, env := sc.consts.Inputs(), BindInputs(sc.consts.Inputs(), vals);
    forall id | id in env
      ensures sc.consts.Has(id) && Rep(img.p, img.code.labels, stk'[home + ConstOffset(sc.consts, id)], env[id])
    {
      IndexOfPrefix(ids, sc.consts.locals, id);
      assert stk'[home + IndexOf(ids, id)] == stk[home..][IndexOf(ids, id)];
    }
  }

  lemma {:induction false} IndexOfPrefix(a: seq<ConstId>, b: seq<ConstId>, id: ConstId)
    requires id in a
    ensures id in a + b && IndexOf(a + b, id) == IndexOf(a, id)
  {
    if a[0] != id {
      IndexOfPrefix(a[1..], b, id);
      assert (a + b)[1..] == a[1..] + b;
    }
  }

  /** A call whose target and arguments are known. */
  lemma {:induction false} CallStep(
    l: Place, at: nat, i: Instr, env': Env, w': World, stk': seq<Word>, xs: seq<Word>, fuel: nat, f: FuncId,
    vals: seq<Value>, ws: seq<Word>, tail: bool)
    returns (x: Word)
    requires l.Valid() && Computes(l, false, at, env', w', stk', xs)
    requires RepAll(l.img, ws, vals) && FuncLabel(f) in l.img.code.labels
    requires at < |l.img.code.instrs| && l.img.code.instrs[at] == i
    requires Exec(l.img.code, Running(at, stk' + xs, l.home, w'), i)
          == Enter(Running(at, stk' + ws, l.home, w'), |ws|, l.img.code.labels[FuncLabel(f)], tail)
    requires l.img.p.IsUser(f) && Invoke(l.img.p, fuel, f, vals, w').Ok?
    requires tail ==> HasCaller(l.stk, l.home)
    ensures Rep(l.img.p, l.img.code.labels, x, Invoke(l.img.p, fuel, f, vals, w').val)
    ensures Computes(l, tail, at + 1, env', Invoke(l.img.p, fuel, f, vals, w').world, stk', [x])
    decreases fuel, 2
  {
    hide Rep, Good, Invoke, RepEnv, Returned, Enter;
    var c, tgt, w2 := l.img.code, l.img.code.labels[FuncLabel(f)], Invoke(l.img.p, fuel, f, vals, w').world;
    ReachStep(c, l.State(), Running(at, stk' + xs, l.home, w'), i);
    if tail {
      var stk2 := ReuseFrame(l, stk', ws, at, w', tgt);
      x := CorrectFunc(l.img, fuel, f, vals, stk2, l.home, w');
      SameReturn(l.stk, stk2, l.home, x, w2);
      ReachTrans(c, l.State(), Running(tgt, stk2, l.home, w'), Returned(stk2, l.home, x, w2));
    } else {
      var home2, stk2 := PushFrame(l, stk', ws, at, w', tgt);
      x := CorrectFunc(l.img, fuel, f, vals, stk2, home2, w');
      ReturnPushed(stk', ws, stk2, home2, at + 1, l.home, x, w2);
      ReachTrans(c, l.State(), Running(tgt, stk2, home2, w'), Returned(stk2, home2, x, w2));
    }
  }

  /** A tail call keeps only the arguments, in the place of the frame. */
  lemma ReuseFrame(l: Place, stk': seq<Word>, ws: seq<Word>, at: nat, w': World, tgt: nat)
    returns (stk2: seq<Word>)
    requires Frame(l.stk, stk', l.home, |l.sc.consts.All()|) && HasCaller(l.stk, l.home)
    ensures Enter(Running(at, stk' + ws, l.home, w'), |ws|, tgt, true) == Running(tgt, stk2, l.home, w')
    ensures stk2[..l.home] == l.stk[..l.home] && l.home <= |stk2| && stk2[l.home..] == ws && HasCaller(stk2, l.home)
  {
    assert Last(stk' + ws, |ws|) == ws;
    stk2 := (stk' + ws)[..l.home] + ws;
    assert forall i :: 0 <= i < l.home ==> stk2[i] == l.stk[i];
  }

  lemma SameReturn(stk: seq<Word>, stk2: seq<Word>, home: nat, x: Word, w: World)
    requires HasCaller(stk, home) && HasCaller(stk2, home) && stk2[..home] == stk[..home]
    ensures Returned(stk2, home, x, w) == Returned(stk, home, x, w)
  {
    assert stk2[..home - 2] == stk2[..home][..home - 2] == stk[..home - 2];
    assert stk2[home - 2] == stk2[..home][home - 2] && stk2[home - 1] == stk2[..home][home - 1];
  }

  /** A call puts the return address and the home below its arguments. */
  lemma PushFrame(l: Place, stk': seq<Word>, ws: seq<Word>, at: nat, w': World, tgt: nat)
    returns (home2: nat, stk2: seq<Word>)
    ensures Enter(Running(at, stk' + ws, l.home, w'), |ws|, tgt, false) == Running(tgt, stk2, home2, w')
    ensures stk2 == stk' + [WIp(at + 1), WHome(l.home)] + ws && home2 == |stk'| + 2
    ensures HasCaller(stk2, home2) && stk2[home2..] == ws
  {
    assert Last(stk' + ws, |ws|) == ws && Drop(stk' + ws, |ws|) == stk';
    home2 := |stk'| + 2;
    stk2 := stk' + [WIp(at + 1), WHome(l.home)] + ws;
    assert stk2[home2..] == ws;
  }

  lemma ReturnPushed(
    stk': seq<Word>, ws: seq<Word>, stk2: seq<Word>, home2: nat, ip: nat, home: nat, x: Word, w: World)
    requires stk2 == stk' + [WIp(ip), WHome(home)] + ws && home2 == |stk'| + 2
    ensures HasCaller(stk2, home2) && Returned(stk2, home2, x, w) == Running(ip, stk' + [x], home, w)
  {
    assert stk2[..home2 - 2] == stk';
  }

  lemma {:induction false} CorrectCall(l: Place, fuel: nat, e: Expr, tail: bool, ctr: nat, k: nat)
    returns (stk': seq<Word>, x: Word)
    requires e.Call? && Starts(l, fuel, e, tail, 1, ctr, k)
    ensures Simulates(l, fuel, e, tail, 1, ctr, stk', x)
    decreases fuel, 0, e, 2
  {
    hide Computes, Embedded, Good, Rep;
    if l.img.p.IsUser(e.func) {
      stk', x := CorrectUserCall(l, fuel, e, tail, ctr, k);
    } else if l.img.p.funcs[e.func].kind.MakeUnion? {
      stk', x := CorrectMakeUnion(l, fuel, e, tail, ctr, k);
    } else {
      stk', x := CorrectIntrinsic(l, fuel, e, ctr);
      if tail { FinishHere(l, fuel, e, ctr, stk', x, k); }
    }
  }

  lemma {:induction false} CorrectUserCall(l: Place, fuel: nat, e: Expr, tail: bool, ctr: nat, k: nat)
    returns (stk': seq<Word>, x: Word)
    requires e.Call? && l.img.p.IsUser(e.func) && Starts(l, fuel, e, tail, 1, ctr, k)
    ensures Simulates(l, fuel, e, tail, 1, ctr, stk', x)
    decreases fuel, 0, e, 0
  {
    hide Computes, Embedded, Rep, RepEnv, LeadsToRet, RepAll, Good, Linked, Gen, Eval, EvalAll, GenAll, Invoke, SkipsSafely, GenAt, EvalAt;
    var r, inv, s1 := UserCallUnfold(l, fuel, e, tail, ctr);
    var i := Instr.Call(|e.args|, FuncLabel(e.func), tail);
    var ws;
    stk', ws := FirstAll(l, fuel, e.args, ctr, [i]);
    assert [i][0] == l.img.code.instrs[l.pos + |s1.code| + 0];
    x := CallStep(l, l.pos + |s1.code|, i, r.env, r.world, stk', ws, fuel - 1, e.func, r.val, ws, tail);
  }

  lemma UserCallUnfold(l: Place, fuel: nat, e: Expr, tail: bool, ctr: nat)
    returns (r: Result<seq<Value>>, inv: Result<Value>, s1: Seg)
    requires e.Call? && l.img.p.IsUser(e.func) && EvalAt(l, fuel, e).Ok? && Good(l.img)
    requires l.sc.isAction || SkipsSafely(l.img.p, l.sc, e)
    ensures fuel > 0 && (l.sc.isAction || AllSkipSafely(l.img.p, l.sc, e.args)) && FuncLabel(e.func) in l.img.code.labels
    ensures r == EvalAllAt(l, fuel, e.args) && r.Ok?
    ensures inv == Invoke(l.img.p, fuel - 1, e.func, r.val, r.world) && inv.Ok?
    ensures EvalAt(l, fuel, e) == Return(r.env, inv)
    ensures s1 == GenAll(l.img.p, l.sc, e.args, l.pos, ctr)
    ensures GenAt(l, e, tail, 1, ctr) == s1.Emit([Instr.Call(|e.args|, FuncLabel(e.func), tail)])
  {
    assert FuncFits(l.img.p, e.func) && Linked(l.img, e.func);
    hide Good, Linked;
    r := EvalAllAt(l, fuel, e.args);
    inv := Invoke(l.img.p, fuel - 1, e.func, r.val, r.world);
    s1 := GenAll(l.img.p, l.sc, e.args, l.pos, ctr);
  }

  /** The bound inputs of the current function are passed on behind the arguments. */
  lemma {:induction false} CorrectCallSelf(l: Place, fuel: nat, e: Expr, tail: bool, ctr: nat, k: nat)
    returns (stk': seq<Word>, x: Word)
    requires e.CallSelf? && Starts(l, fuel, e, tail, 1, ctr, k)
    ensures Simulates(l, fuel, e, tail, 1, ctr, stk', x)
    decreases fuel, 0, e, 0
  {
    hide Computes, Embedded, Rep, RepEnv, RepAll, Good, Gen, GenAll, Eval, EvalAll, LoadConsts, Lookups, LeadsToRet, Invoke, Starts, AllSkipSafely, NoneDead;
    SelfReady(l, fuel, e, tail, ctr, k);
    var r := EvalAllAt(l, fuel, e.args);
    var i := Instr.Call(|l.sc.consts.Inputs()|, FuncLabel(l.sc.func.value), tail);
    var ws;
    stk', ws := FirstAll(l, fuel, e.args, ctr, LoadConsts(l.sc.consts, l.sc.consts.bound) + [i]);
    x := SelfStep(l, l.pos + |GenAll(l.img.p, l.sc, e.args, l.pos, ctr).code|, r.env, r.world, stk', ws, r.val,
                  fuel - 1, tail);
  }

  /** What a self-call evaluates to, and its code. */
  lemma SelfReady(l: Place, fuel: nat, e: Expr, tail: bool, ctr: nat, k: nat)
    requires e.CallSelf? && Starts(l, fuel, e, tail, 1, ctr, k)
    ensures l.Valid() && (tail ==> HasCaller(l.stk, l.home)) && EvalAllAt(l, fuel, e.args).Ok?
    ensures l.sc.func.Some? && l.img.p.IsUser(l.sc.func.value) && fuel > 0
    ensures var r := EvalAllAt(l, fuel, e.args);
            && Lookups(r.env, l.sc.consts.bound).Some?
            && var vs := r.val + Lookups(r.env, l.sc.consts.bound).value;
               var inv := Invoke(l.img.p, fuel - 1, l.sc.func.value, vs, r.world);
            inv.Ok? && EvalAt(l, fuel, e) == Return(r.env, inv) && |r.val| == |l.sc.consts.inputs|
    ensures var s1, i := GenAll(l.img.p, l.sc, e.args, l.pos, ctr), Instr.Call(|l.sc.consts.Inputs()|, FuncLabel(l.sc.func.value), tail);
            && GenAt(l, e, tail, 1, ctr) == s1.Emit(LoadConsts(l.sc.consts, l.sc.consts.bound) + [i])
            && Embedded(l.img.code, l.pos, s1.Emit(LoadConsts(l.sc.consts, l.sc.consts.bound) + [i]))
    ensures (l.sc.isAction || AllSkipSafely(l.img.p, l.sc, e.args)) && NoneDead(l.img.p, l.sc, l.sc.consts.bound)
  {
    assert Fits(l.img.p);
    hide Embedded, RepEnv, Good, Gen, GenAll, Eval, EvalAll, LoadConsts, Lookups, LeadsToRet, Invoke, SkipsSafely, AllSkipSafely, NoneDead;
    SelfSkips(l, e);
    SelfEval(l, fuel, e);
    SelfGen(l, e, tail, ctr);
  }

  lemma SelfSkips(l: Place, e: Expr)
    requires e.CallSelf? && (l.sc.isAction || SkipsSafely(l.img.p, l.sc, e))
    ensures (l.sc.isAction || AllSkipSafely(l.img.p, l.sc, e.args)) && NoneDead(l.img.p, l.sc, l.sc.consts.bound)
  {}

  lemma {:induction false} SelfStep(
    l: Place, at: nat, env': Env, w': World, stk': seq<Word>, ws: seq<Word>, vs: seq<Value>, fuel: nat,
    tail: bool)
    returns (x: Word)
    requires l.Valid() && Computes(l, false, at, env', w', stk', ws) && |ws| == |vs| && RepAll(l.img, ws, vs)
    requires l.sc.func.Some? && l.img.p.IsUser(l.sc.func.value) && Lookups(env', l.sc.consts.bound).Some?
    requires |vs| == |l.sc.consts.inputs| && NoneDead(l.img.p, l.sc, l.sc.consts.bound)
    requires Has(l.img.code, at, LoadConsts(l.sc.consts, l.sc.consts.bound)
                                 + [Instr.Call(|l.sc.consts.Inputs()|, FuncLabel(l.sc.func.value), tail)])
    requires Invoke(l.img.p, fuel, l.sc.func.value, vs + Lookups(env', l.sc.consts.bound).value, w').Ok?
    requires tail ==> HasCaller(l.stk, l.home)
    ensures var inv := Invoke(l.img.p, fuel, l.sc.func.value, vs + Lookups(env', l.sc.consts.bound).value, w');
            && Rep(l.img.p, l.img.code.labels, x, inv.val)
            && Computes(l, tail, at + |l.sc.consts.bound| + 1, env', inv.world, stk', [x])
    decreases fuel, 3
  {
    hide Computes, Embedded, Rep, RepEnv, RepAll, LoadConsts, Lookups, Invoke, NoneDead;
    var consts, f := l.sc.consts, l.sc.func.value;
    var loads, i := LoadConsts(consts, consts.bound), Instr.Call(|consts.Inputs()|, FuncLabel(f), tail);
    assert Linked(l.img, f);
    hide Good, Linked;
    HasSplit(l.img.code, at, loads, [i]);
    assert [i][0] == l.img.code.instrs[at + |loads| + 0];
    var ws2 := PushConsts(l, at, env', w', stk', ws, vs, consts.bound);
    x := CallStep(l, at + |loads|, i, env', w', stk', ws2, fuel, f, vs + Lookups(env', consts.bound).value, ws2, tail);
  }

  lemma SelfEval(l: Place, fuel: nat, e: Expr)
    requires e.CallSelf? && EvalAt(l, fuel, e).Ok? && ScopeOk(l.img.p, l.sc)
    ensures EvalAllAt(l, fuel, e.args).Ok?
    ensures l.sc.func.Some? && l.img.p.IsUser(l.sc.func.value) && fuel > 0
    ensures var r := EvalAllAt(l, fuel, e.args);
            && Lookups(r.env, l.sc.consts.bound).Some?
            && var vs := r.val + Lookups(r.env, l.sc.consts.bound).value;
               var inv := Invoke(l.img.p, fuel - 1, l.sc.func.value, vs, r.world);
            inv.Ok? && EvalAt(l, fuel, e) == Return(r.env, inv) && |r.val| == |l.sc.consts.inputs|
  {}

  lemma SelfGen(l: Place, e: Expr, tail: bool, ctr: nat)
    requires e.CallSelf? && ScopeOk(l.img.p, l.sc) && l.sc.func.Some? && Fits(l.img.p)
    ensures GenAt(l, e, tail, 1, ctr)
         == GenAll(l.img.p, l.sc, e.args, l.pos, ctr).Emit(
              LoadConsts(l.sc.consts, l.sc.consts.bound)
              + [Instr.Call(|l.sc.consts.Inputs()|, FuncLabel(l.sc.func.value), tail)])
  {
    hide LoadConsts, GenAll;
    assert FuncFits(l.img.p, l.sc.func.value);
  }

  /** Loads constants of the frame behind the words ws. */
  lemma {:induction false} PushConsts(
    l: Place, at: nat, env': Env, w': World, stk': seq<Word>, ws: seq<Word>, vs: seq<Value>,
    ids: seq<ConstId>)
    returns (ws2: seq<Word>)
    requires Computes(l, false, at, env', w', stk', ws) && RepAll(l.img, ws, vs)
    requires Has(l.img.code, at, LoadConsts(l.sc.consts, ids))
    requires Lookups(env', ids).Some? && NoneDead(l.img.p, l.sc, ids)
    ensures |ws2| == |vs| + |ids| && RepAll(l.img, ws2, vs + Lookups(env', ids).value)
    ensures Computes(l, false, at + |ids|, env', w', stk', ws2)
    decreases ids
  {
    hide Computes, Rep, Embedded;
    if ids == [] {
      ws2 := ws;
      assert vs + Lookups(env', ids).value == vs;
    } else {
      var o, rest := ConstOffset(l.sc.consts, ids[0]), LoadConsts(l.sc.consts, ids[1..]);
      HasSplit(l.img.code, at, [StackLoad(o)], rest);
      assert [StackLoad(o)][0] == l.img.code.instrs[at + 0];
      LookupsStep(env', ids, vs);
      var y := PushConst(l, at, env', w', stk', ws, ids[0]);
      ws2 := PushConsts(l, at + 1, env', w', stk', ws + [y], vs + [env'[ids[0]]], ids[1..]);
    }
  }

  lemma LookupsStep(env: Env, ids: seq<ConstId>, vs: seq<Value>)
    requires ids != [] && Lookups(env, ids).Some?
    ensures ids[0] in env && Lookups(env, ids[1..]).Some?
    ensures vs + [env[ids[0]]] + Lookups(env, ids[1..]).value == vs + Lookups(env, ids).value
  {
    assert forall i :: 0 <= i < |ids| - 1 ==> ids[1..][i] == ids[i + 1];
  }

  lemma PushConst(
    l: Place, at: nat, env': Env, w': World, stk': seq<Word>, ws: seq<Word>, id: ConstId)
    returns (y: Word)
    requires Computes(l, false, at, env', w', stk', ws) && id in env' && id !in Dead(l.img.p, l.sc)
    requires at < |l.img.code.instrs| && l.img.code.instrs[at] == StackLoad(ConstOffset(l.sc.consts, id))
    ensures Rep(l.img.p, l.img.code.labels, y, env'[id])
    ensures Computes(l, false, at + 1, env', w', stk', ws + [y])
  {
    y := stk'[l.home + ConstOffset(l.sc.consts, id)];
    assert (stk' + ws)[l.home + ConstOffset(l.sc.consts, id)] == y;
    ThenPush(l, at, StackLoad(ConstOffset(l.sc.consts, id)), env', w', stk', ws, y);
  }

  /** The delegate is evaluated after the arguments; a closure pushes its bound values behind them. */
  lemma {:induction false} CorrectCallDyn(l: Place, fuel: nat, e: Expr, tail: bool, ctr: nat, k: nat)
    returns (stk': seq<Word>, x: Word)
    requires e.CallDyn? && Starts(l, fuel, e, tail, 1, ctr, k)
    ensures Simulates(l, fuel, e, tail, 1, ctr, stk', x)
    decreases fuel, 0, e, 0
  {
    hide Computes, Embedded, Good, Rep, RepEnv, LeadsToRet, RepAll, Gen, Eval, EvalAll, GenAll, Invoke, SkipsSafely, GenAt, EvalAt, EvalAllAt;
    var r, t, s1, s2 := CallDynUnfold(l, fuel, e, tail, ctr);
    var ws, d;
    stk', ws, d := DynOperands(l, fuel, e, ctr, r, t, s1, s2);
    x := DynStep(l, l.pos + |s1.code| + |s2.code|, Instr.CallDyn(|ws|, tail), t.env, t.world, stk', ws, d, r.val,
                 fuel - 1, t.val.func, t.val.bound, tail);
  }

  /** The arguments and then the delegate. */
  lemma {:induction false} DynOperands(
    l: Place, fuel: nat, e: Expr, ctr: nat, r: Result<seq<Value>>, t: Result<Value>, s1: Seg, s2: Seg)
    returns (stk': seq<Word>, ws: seq<Word>, d: Word)
    requires e.CallDyn? && l.Valid() && r.Ok? && t.Ok?
    requires r == EvalAllAt(l, fuel, e.args) && t == Eval(l.img.p, l.sc, fuel, e.tgt, r.env, r.world)
    requires l.sc.isAction || (AllSkipSafely(l.img.p, l.sc, e.args) && SkipsSafely(l.img.p, l.sc, e.tgt))
    requires s1 == GenAll(l.img.p, l.sc, e.args, l.pos, ctr)
    requires s2 == Gen(l.img.p, l.sc, e.tgt, false, 1, l.pos + |s1.code|, s1.next)
    requires Embedded(l.img.code, l.pos, s1) && Embedded(l.img.code, l.pos + |s1.code|, s2)
    ensures |ws| == |e.args| && RepAll(l.img, ws, r.val) && Rep(l.img.p, l.img.code.labels, d, t.val)
    ensures Computes(l, false, l.pos + |s1.code| + |s2.code|, t.env, t.world, stk', ws + [d])
    decreases fuel, 0, e, 0, 0
  {
    hide Computes, Embedded, Good, Rep, RepEnv, LeadsToRet, RepAll, Gen, Eval, EvalAll, GenAll, SkipsSafely;
    var stk1, stk2;
    stk1, ws := CorrectAll(l, fuel, e.args, ctr);
    var l2 := OnTop(l, l.pos + |s1.code|, r.env, r.world, stk1, ws);
    stk2, d := Correct(l2, fuel, e.tgt, false, 1, s1.next, 0);
    assert Produced(e.tgt, 1) == 1;
    stk' := Unstack(l, l2, l2.pos + |s2.code|, r.env, r.world, stk1, ws, t.env, t.world, stk2, [d]);
  }

  lemma CallDynUnfold(l: Place, fuel: nat, e: Expr, tail: bool, ctr: nat)
    returns (r: Result<seq<Value>>, t: Result<Value>, s1: Seg, s2: Seg)
    requires e.CallDyn? && EvalAt(l, fuel, e).Ok? && Good(l.img) && Embedded(l.img.code, l.pos, GenAt(l, e, tail, 1, ctr))
    requires l.sc.isAction || SkipsSafely(l.img.p, l.sc, e)
    ensures fuel > 0 && (l.sc.isAction || (AllSkipSafely(l.img.p, l.sc, e.args) && SkipsSafely(l.img.p, l.sc, e.tgt)))
    ensures r == EvalAllAt(l, fuel, e.args) && r.Ok?
    ensures t == Eval(l.img.p, l.sc, fuel, e.tgt, r.env, r.world) && t.Ok?
    ensures t.val.VFunc? && l.img.p.IsUser(t.val.func)
    ensures Invoke(l.img.p, fuel - 1, t.val.func, r.val + t.val.bound, t.world).Ok?
    ensures EvalAt(l, fuel, e) == Return(t.env, Invoke(l.img.p, fuel - 1, t.val.func, r.val + t.val.bound, t.world))
    ensures s1 == GenAll(l.img.p, l.sc, e.args, l.pos, ctr)
    ensures s2 == Gen(l.img.p, l.sc, e.tgt, false, 1, l.pos + |s1.code|, s1.next)
    ensures Embedded(l.img.code, l.pos, s1) && Embedded(l.img.code, l.pos + |s1.code|, s2)
    ensures l.pos + |GenAt(l, e, tail, 1, ctr).code| == l.pos + |s1.code| + |s2.code| + 1 <= |l.img.code.instrs|
    ensures l.img.code.instrs[l.pos + |s1.code| + |s2.code|] == Instr.CallDyn(|e.args|, tail)
  {
    hide Embedded, GenAll, GenSwitch, Intrinsic;
    r := EvalAllAt(l, fuel, e.args);
    t := Eval(l.img.p, l.sc, fuel, e.tgt, r.env, r.world);
    assert FuncFits(l.img.p, t.val.func);
    assert Invoke(l.img.p, fuel - 1, t.val.func, r.val + t.val.bound, t.world).Ok?;
    assert |r.val + t.val.bound| <= 255;
    hide Good;
    s1 := GenAll(l.img.p, l.sc, e.args, l.pos, ctr);
    s2 := Gen(l.img.p, l.sc, e.tgt, false, 1, l.pos + |s1.code|, s1.next);
    assert GenAt(l, e, tail, 1, ctr) == s1.Cat(s2).Emit([Instr.CallDyn(|e.args|, tail)]);
    DynPlaced(l.img.code, l.pos, s1, s2, Instr.CallDyn(|e.args|, tail));
  }

  lemma DynPlaced(c: Code, pos: nat, s1: Seg, s2: Seg, i: Instr)
    requires Embedded(c, pos, s1.Cat(s2).Emit([i]))
    ensures Embedded(c, pos, s1) && Embedded(c, pos + |s1.code|, s2)
    ensures pos + |s1.code| + |s2.code| < |c.instrs| && c.instrs[pos + |s1.code| + |s2.code|] == i
  {
    EmbeddedEmit(c, pos, s1.Cat(s2), [i]);
    EmbeddedCat(c, pos, s1, s2);
    assert [i][0] == c.instrs[pos + |s1.Cat(s2).code| + 0];
  }

  lemma DynStep(
    l: Place, at: nat, i: Instr, env': Env, w': World, stk': seq<Word>, ws: seq<Word>, d: Word,
    vs: seq<Value>, fuel: nat, f: FuncId, bound: seq<Value>, tail: bool)
    returns (x: Word)
    requires l.Valid() && Computes(l, false, at, env', w', stk', ws + [d])
    requires RepAll(l.img, ws, vs) && Rep(l.img.p, l.img.code.labels, d, VFunc(f, bound))
    requires at < |l.img.code.instrs| && l.img.code.instrs[at] == i == Instr.CallDyn(|ws|, tail)
    requires l.img.p.IsUser(f) && Invoke(l.img.p, fuel, f, vs + bound, w').Ok?
    requires tail ==> HasCaller(l.stk, l.home)
    ensures Rep(l.img.p, l.img.code.labels, x, Invoke(l.img.p, fuel, f, vs + bound, w').val)
    ensures Computes(l, tail, at + 1, env', Invoke(l.img.p, fuel, f, vs + bound, w').world, stk', [x])
    decreases fuel, 3
  {
    var c := l.img.code;
    var bws := BoundWords(l.img, d, f, bound);
    hide Computes, Good, Invoke, Rep, Enter, Exec;
    assert RepAll(l.img, ws + bws, vs + bound);
    DynEnters(c, Running(at, stk', l.home, w'), ws, bws, d, c.labels[FuncLabel(f)], tail);
    x := CallStep(l, at, i, env', w', stk', ws + [d], fuel, f, vs + bound, ws + bws, tail);
  }

  /** A delegate is an instruction pointer, or a struct of the bound arguments and one. */
  lemma BoundWords(img: Image, d: Word, f: FuncId, bound: seq<Value>) returns (bws: seq<Word>)
    requires Rep(img.p, img.code.labels, d, VFunc(f, bound))
    ensures RepAll(img, bws, bound) && FuncLabel(f) in img.code.labels
    ensures (bws == [] && d == WIp(img.code.labels[FuncLabel(f)]))
            || d == WStruct(bws + [WIp(img.code.labels[FuncLabel(f)])])
  {
    bws := if d.WIp? then [] else Drop(d.fields, 1);
    assert d.WStruct? ==> d.fields == bws + [Top(d.fields)];
  }

  lemma DynEnters(c: Code, s: State, ws: seq<Word>, bws: seq<Word>, d: Word, tgt: nat, tail: bool)
    requires s.Running? && ((bws == [] && d == WIp(tgt)) || d == WStruct(bws + [WIp(tgt)]))
    ensures Exec(c, s.(stack := s.stack + (ws + [d])), Instr.CallDyn(|ws|, tail))
         == Enter(s.(stack := s.stack + (ws + bws)), |ws + bws|, tgt, tail)
  {
    hide Enter;
    TopOf(s.stack, ws, d);
    assert s.stack + ws + bws == s.stack + (ws + bws);
    if d.WIp? {
      assert ws + bws == ws;
    } else {
      assert Drop(d.fields, 1) == bws;
    }
  }

  // ----- Functions without a body -----

  lemma {:induction false} CorrectIntrinsic(l: Place, fuel: nat, e: Expr, ctr: nat)
    returns (stk': seq<Word>, x: Word)
    requires e.Call? && e.func < |l.img.p.funcs| && !l.img.p.IsUser(e.func) && !l.img.p.funcs[e.func].kind.MakeUnion?
    requires Starts(l, fuel, e, false, 1, ctr, 0)
    ensures Simulates(l, fuel, e, false, 1, ctr, stk', x)
    ensures GenAt(l, e, true, 1, ctr) == GenAt(l, e, false, 1, ctr)
    decreases fuel, 0, e, 0
  {
    assert EvalAt(l, fuel, e).Ok? && l.Valid() && Embedded(l.img.code, l.pos, GenAt(l, e, false, 1, ctr));
    hide Computes, Embedded, Rep, Good, RepAll, RepEnv, Eval, Gen, EvalAll, GenAll, SkipsSafely, AllSkipSafely,
         Intrinsic, CallInstrs;
    var v := IntrinsicUnfold(l, fuel, e, ctr);
    var r, more := EvalAllAt(l, fuel, e.args), CallInstrs(l.img.p, e.func, |e.args|, false);
    var ws;
    stk', ws := FirstAll(l, fuel, e.args, ctr, more);
    var at := l.pos + |GenAll(l.img.p, l.sc, e.args, l.pos, ctr).code|;
    x := IntrinsicStep(l, at, r.env, r.world, stk', ws, r.val, e.func, v);
  }

  lemma IntrinsicUnfold(l: Place, fuel: nat, e: Expr, ctr: nat) returns (v: (Value, World))
    requires e.Call? && e.func < |l.img.p.funcs| && !l.img.p.IsUser(e.func) && !l.img.p.funcs[e.func].kind.MakeUnion?
    requires EvalAt(l, fuel, e).Ok? && (l.sc.isAction || SkipsSafely(l.img.p, l.sc, e))
    ensures l.sc.isAction || AllSkipSafely(l.img.p, l.sc, e.args)
    ensures var r := EvalAllAt(l, fuel, e.args);
            && r.Ok? && |r.val| == |e.args| && EvalAt(l, fuel, e) == Ok(v.0, r.env, v.1)
            && Intrinsic(l.img.p, l.img.p.funcs[e.func].kind, r.val, r.world) == Some(v)
    ensures GenAt(l, e, true, 1, ctr) == GenAt(l, e, false, 1, ctr)
         == GenAll(l.img.p, l.sc, e.args, l.pos, ctr).Emit(CallInstrs(l.img.p, e.func, |e.args|, false))
  {
    hide Intrinsic, EvalAll, GenAll, AllSkipSafely;
    var r := EvalAllAt(l, fuel, e.args);
    assert CallInstrs(l.img.p, e.func, |e.args|, true) == CallInstrs(l.img.p, e.func, |e.args|, false);
    hide CallInstrs;
    v := Intrinsic(l.img.p, l.img.p.funcs[e.func].kind, r.val, r.world).value;
  }

  lemma BinaryStep(
    l: Place, at: nat, env': Env, w': World, stk': seq<Word>, ws: seq<Word>, vs: seq<Value>, op: BinOp,
    more: seq<Instr>)
    returns (x: Word)
    requires Computes(l, false, at, env', w', stk', ws) && RepAll(l.img, ws, vs) && |vs| == 2 && vs[0].VInt? && vs[1].VInt?
    requires ApplyBin(op, vs[0].i, vs[1].i).Some? && more == [Arith2(op)] && Has(l.img.code, at, more)
    ensures x == WInt(ApplyBin(op, vs[0].i, vs[1].i).value)
    ensures Computes(l, false, at + 1, env', w', stk', [x])
  {
    hide Computes, ApplyBin;
    assert more[0] == l.img.code.instrs[at + 0];
    assert ws == [] + [WInt(vs[0].i)] + [WInt(vs[1].i)];
    ThenArith2(l, at, op, env', w', stk', [], vs[0].i, vs[1].i);
    x := WInt(ApplyBin(op, vs[0].i, vs[1].i).value);
    assert [] + [x] == [x];
  }

  lemma IntrinsicStep(
    l: Place, at: nat, env': Env, w': World, stk': seq<Word>, ws: seq<Word>, vs: seq<Value>, f: FuncId,
    v: (Value, World))
    returns (x: Word)
    requires l.Valid() && Computes(l, false, at, env', w', stk', ws) && |ws| == |vs| && RepAll(l.img, ws, vs)
    requires f < |l.img.p.funcs| && !l.img.p.funcs[f].kind.MakeUnion?
    requires Intrinsic(l.img.p, l.img.p.funcs[f].kind, vs, w') == Some(v)
    requires Has(l.img.code, at, CallInstrs(l.img.p, f, |vs|, false))
    ensures Rep(l.img.p, l.img.code.labels, x, v.0)
    ensures Computes(l, false, at + |CallInstrs(l.img.p, f, |vs|, false)|, env', v.1, stk', [x])
  {
    hide Computes, RepEnv, Linked, IndexOf, Repeat, Run;
    var c, more := l.img.code, CallInstrs(l.img.p, f, |vs|, false);
    match l.img.p.funcs[f].kind
    case NoOp =>
      if vs == [] {
        assert more[0] == c.instrs[at + 0];
        x := WInt(0);
        assert ws + [x] == [x];
        ThenLoadInt(l, at, 0, env', w', stk', ws);
      } else {
        x := ws[0];
        PopToFirst(l, at, env', w', stk', ws);
      }
    case Binary(op) => x := BinaryStep(l, at, env', w', stk', ws, vs, op, more);
    case Unary(op) =>
      assert more[0] == c.instrs[at + 0];
      assert ws == [] + [WInt(vs[0].i)];
      ThenArith1(l, at, op, env', w', stk', [], vs[0].i);
      x := WInt(ApplyUn(op, vs[0].i));
      assert [] + [x] == [x];
    case MakeStruct(s) => x := MakeStructStep(l, at, env', w', stk', ws, vs, s, more);
    case Action(code, arity) =>
      assert more[0] == c.instrs[at + 0];
      x := WInt(w'.replies[0]);
      assert Last(stk' + ws, arity) == ws && Drop(stk' + ws, arity) == stk';
      assert WordInts(ws).value == Ints(vs).value;
      Then(l, at, PCall(code, arity), env', w', v.1, stk', ws, at + 1, [x]);
  }

  lemma MakeStructStep(
    l: Place, at: nat, env': Env, w': World, stk': seq<Word>, ws: seq<Word>, vs: seq<Value>, s: TypeId,
    more: seq<Instr>)
    returns (x: Word)
    requires Computes(l, false, at, env', w', stk', ws) && RepAll(l.img, ws, vs)
    requires Has(l.img.code, at, more) && |vs| <= 255
    requires more == if vs == [] then [MakeNullStruct] else if |vs| == 1 then [] else [Instr.MakeStruct(|vs|)]
    ensures Rep(l.img.p, l.img.code.labels, x, VStruct(s, vs))
    ensures Computes(l, false, at + |more|, env', w', stk', [x])
  {
    hide Computes;
    if vs == [] {
      assert more[0] == l.img.code.instrs[at + 0];
      x := WNull;
      assert ws + [WNull] == [WNull];
      ThenPush(l, at, MakeNullStruct, env', w', stk', ws, WNull);
    } else if |vs| == 1 {
      x := ws[0];
      assert ws == [x];
    } else {
      assert more[0] == l.img.code.instrs[at + 0];
      ThenMakeStruct(l, at, env', w', stk', ws);
      x := WStruct(ws);
    }
  }

  /** Only the first operand stays. */
  lemma {:induction false} PopToFirst(
    l: Place, at: nat, env': Env, w': World, stk': seq<Word>, ws: seq<Word>)
    requires ws != [] && Computes(l, false, at, env', w', stk', ws)
    requires Has(l.img.code, at, Repeat(Instr.Pop, |ws| - 1))
    ensures Computes(l, false, at + |ws| - 1, env', w', stk', [ws[0]])
    decreases |ws|
  {
    hide Computes;
    var pops := Repeat(Instr.Pop, |ws| - 1);
    if |ws| == 1 {
      assert ws == [ws[0]];
    } else {
      var rest, y := Drop(ws, 1), Top(ws);
      assert ws == rest + [y];
      assert pops[0] == l.img.code.instrs[at + 0];
      assert pops == [Instr.Pop] + Repeat(Instr.Pop, |rest| - 1);
      HasSplit(l.img.code, at, [Instr.Pop], Repeat(Instr.Pop, |rest| - 1));
      ThenPop(l, at, env', w', stk', rest, y);
      PopToFirst(l, at + 1, env', w', stk', rest);
    }
  }

  // ----- Making unions -----

  lemma {:induction false} CorrectMakeUnion(l: Place, fuel: nat, e: Expr, tail: bool, ctr: nat, k: nat)
    returns (stk': seq<Word>, x: Word)
    requires e.Call? && e.func < |l.img.p.funcs| && l.img.p.funcs[e.func].kind.MakeUnion?
    requires Starts(l, fuel, e, tail, 1, ctr, k)
    ensures Simulates(l, fuel, e, tail, 1, ctr, stk', x)
    decreases fuel, 0, e, 1
  {
    var u, t := l.img.p.funcs[e.func].kind.utype, l.img.p.funcs[e.func].kind.member;
    MakeUnionEval(l, fuel, e);
    MakeUnionGen(l, e, tail, ctr);
    MakeUnionGen(l, e, false, ctr);
    hide Computes, Embedded, Rep, RepEnv, Good, HasType, UnionIsNullableStruct, Eval;
    if UnionIsNullableStruct(l.img.p, u) && !StructIsTagType(l.img.p, t) {
      stk', x := Correct(l, fuel, e.args[0], tail, 1, ctr, k);
      NullableRep(l, x, u, t, EvalAt(l, fuel, e.args[0]).val);
    } else {
      if UnionIsNullableStruct(l.img.p, u) {
        stk', x := MakeTag(l, fuel, e, ctr);
      } else {
        stk', x := MakeOrdinary(l, fuel, e, ctr);
      }
      if tail { FinishHere(l, fuel, e, ctr, stk', x, k); }
    }
  }

  lemma MakeUnionGen(l: Place, e: Expr, tail: bool, ctr: nat)
    requires e.Call? && e.func < |l.img.p.funcs| && l.img.p.funcs[e.func].kind.MakeUnion? && |e.args| == 1
    ensures GenAt(l, e, tail, 1, ctr)
         == GenUnion(l.img.p, l.sc, l.img.p.funcs[e.func].kind.utype, l.img.p.funcs[e.func].kind.member, e.args, tail, l.pos, ctr)
  {}

  lemma MakeUnionEval(l: Place, fuel: nat, e: Expr)
    requires e.Call? && e.func < |l.img.p.funcs| && l.img.p.funcs[e.func].kind.MakeUnion?
    requires EvalAt(l, fuel, e).Ok? && (l.sc.isAction || SkipsSafely(l.img.p, l.sc, e))
    ensures |e.args| == 1 && (l.sc.isAction || Skips(l.img.p, e) || SkipsSafely(l.img.p, l.sc, e.args[0]))
    ensures var u, t, r := l.img.p.funcs[e.func].kind.utype, l.img.p.funcs[e.func].kind.member, EvalAt(l, fuel, e.args[0]);
            && r.Ok? && EvalAt(l, fuel, e) == Ok(VUnion(u, t, r.val), r.env, r.world)
            && l.img.p.IsUnion(u) && t in l.img.p.types[u].members && HasType(l.img.p, r.val, t)
  {
    var r := EvalAllAt(l, fuel, e.args);
    assert |r.val| == 1;
    assert EvalAll(l.img.p, l.sc, fuel, e.args[1..], EvalAt(l, fuel, e.args[0]).env, EvalAt(l, fuel, e.args[0]).world).val == [];
  }

  /** The struct of a nullable union is never the null word. */
  lemma NullableRep(l: Place, x: Word, u: TypeId, t: TypeId, v: Value)
    requires UnionIsNullableStruct(l.img.p, u) && !StructIsTagType(l.img.p, t)
    requires t in l.img.p.types[u].members && HasType(l.img.p, v, t)
    requires Rep(l.img.p, l.img.code.labels, x, v)
    ensures Rep(l.img.p, l.img.code.labels, x, VUnion(u, t, v))
  {
    NullableMembers(l.img.p, u, t, t);
  }

  /** The tag of a nullable union: an action runs the operand and drops its value, a pure function
      does not run it at all. */
  lemma {:induction false} MakeTag(l: Place, fuel: nat, e: Expr, ctr: nat)
    returns (stk': seq<Word>, x: Word)
    requires e.Call? && IsTagUnion(l.img.p, e.func)
    requires Starts(l, fuel, e, false, 1, ctr, 0)
    ensures Simulates(l, fuel, e, false, 1, ctr, stk', x)
    ensures GenAt(l, e, true, 1, ctr) == GenAt(l, e, false, 1, ctr)
    decreases fuel, 0, e, 0
  {
    MakeUnionEval(l, fuel, e);
    MakeUnionGen(l, e, true, ctr);
    MakeUnionGen(l, e, false, ctr);
    var arg, r := e.args[0], EvalAt(l, fuel, e.args[0]);
    x := WNull;
    if l.sc.isAction {
      var s1 := GenAt(l, arg, false, 1, ctr);
      assert s1.Emit([Instr.Pop]).Emit([MakeNullStruct]) == s1.Emit([Instr.Pop, MakeNullStruct]);
      hide Computes, Embedded, RepEnv, Good, UnionIsNullableStruct, Eval;
      var y;
      stk', y := First(l, fuel, arg, 1, ctr, [Instr.Pop, MakeNullStruct]);
      DropThenNull(l, l.pos + |s1.code|, r.env, r.world, stk', y);
    } else {
      stk' := l.stk;
      TagUnfold(l, fuel, e);
      hide Computes, Embedded, RepEnv, Good, UnionIsNullableStruct, Eval;
      Single(l, GenAt(l, e, false, 1, ctr), WNull);
      OnlyDead(l, l.pos + 1, r.env, [WNull]);
    }
  }

  /** An operand without code changes dead constants only, and nothing outside the frame. */
  lemma TagUnfold(l: Place, fuel: nat, e: Expr)
    requires Skips(l.img.p, e) && |e.args| == 1 && EvalAt(l, fuel, e.args[0]).Ok?
    requires ScopeOk(l.img.p, l.sc) && !l.sc.isAction && SkipsSafely(l.img.p, l.sc, e)
    ensures var r := EvalAt(l, fuel, e.args[0]);
            r.world == l.w && Effects.Touches(l.env, r.env, Dead(l.img.p, l.sc))
  {
    var arg := e.args[0];
    PureKeepsWorld(l.img.p, l.sc, fuel, arg, l.env, l.w);
    Effects.EvalTouches(l.img.p, l.sc, fuel, arg, l.env, l.w);
    assert e.args == [arg];
    Effects.AssignedOne(arg);
  }

  lemma OnlyDead(l: Place, at: nat, env': Env, xs: seq<Word>)
    requires Computes(l, false, at, l.env, l.w, l.stk, xs)
    requires Effects.Touches(l.env, env', Dead(l.img.p, l.sc))
    ensures Computes(l, false, at, env', l.w, l.stk, xs)
  {}

  lemma DropThenNull(l: Place, at: nat, env': Env, w': World, stk': seq<Word>, y: Word)
    requires Computes(l, false, at, env', w', stk', [y])
    requires Has(l.img.code, at, [Instr.Pop, MakeNullStruct])
    ensures Computes(l, false, at + 2, env', w', stk', [WNull])
  {
    hide Computes;
    var more := [Instr.Pop, MakeNullStruct];
    assert more[0] == l.img.code.instrs[at + 0] && more[1] == l.img.code.instrs[at + 1];
    assert [] + [y] == [y] && [] + [WNull] == [WNull];
    ThenPop(l, at, env', w', stk', [], y);
    ThenPush(l, at + 1, MakeNullStruct, env', w', stk', [], WNull);
  }

  lemma {:induction false} MakeOrdinary(l: Place, fuel: nat, e: Expr, ctr: nat)
    returns (stk': seq<Word>, x: Word)
    requires e.Call? && e.func < |l.img.p.funcs| && l.img.p.funcs[e.func].kind.MakeUnion?
    requires !UnionIsNullableStruct(l.img.p, l.img.p.funcs[e.func].kind.utype)
    requires Starts(l, fuel, e, false, 1, ctr, 0)
    ensures Simulates(l, fuel, e, false, 1, ctr, stk', x)
    ensures GenAt(l, e, true, 1, ctr) == GenAt(l, e, false, 1, ctr)
    decreases fuel, 0, e, 0
  {
    var d, s2 := OrdinaryUnfold(l, fuel, e, ctr);
    hide Computes, Embedded, RepEnv, Good, Rep, EvalAt, GenAt, Gen, SkipsSafely;
    var y;
    stk', y := AfterInt(l, fuel, e.args[0], ctr, d);
    x := WStruct([WInt(d), y]);
    OrdinaryRep(l, fuel, e, d, y);
  }

  lemma OrdinaryUnfold(l: Place, fuel: nat, e: Expr, ctr: nat) returns (d: nat, s2: Seg)
    requires e.Call? && e.func < |l.img.p.funcs| && l.img.p.funcs[e.func].kind.MakeUnion?
    requires !UnionIsNullableStruct(l.img.p, l.img.p.funcs[e.func].kind.utype)
    requires Starts(l, fuel, e, false, 1, ctr, 0)
    ensures d == UnionDiscriminant(l.img.p, l.img.p.funcs[e.func].kind.utype, l.img.p.funcs[e.func].kind.member)
    ensures l.Valid() && |e.args| == 1 && (l.sc.isAction || SkipsSafely(l.img.p, l.sc, e.args[0]))
    ensures EvalAt(l, fuel, e.args[0]).Ok? && EvalAt(l, fuel, e).env == EvalAt(l, fuel, e.args[0]).env
    ensures EvalAt(l, fuel, e).world == EvalAt(l, fuel, e.args[0]).world
    ensures s2 == Gen(l.img.p, l.sc, e.args[0], false, 1, l.pos + 1, ctr)
    ensures GenAt(l, e, true, 1, ctr) == GenAt(l, e, false, 1, ctr)
    ensures |GenAt(l, e, false, 1, ctr).code| == 2 + |s2.code|
    ensures Embedded(l.img.code, l.pos, Seg([LoadLitInt(d)], [], ctr)) && Embedded(l.img.code, l.pos + 1, s2)
    ensures l.pos + 1 + |s2.code| < |l.img.code.instrs|
    ensures l.img.code.instrs[l.pos + 1 + |s2.code|] == Instr.MakeStruct(2)
  {
    hide Embedded, RepEnv, Good, UnionIsNullableStruct, Eval, Gen, HasType, UnionDiscriminant, SkipsSafely, AllSkipSafely;
    MakeUnionEval(l, fuel, e);
    MakeUnionGen(l, e, true, ctr);
    MakeUnionGen(l, e, false, ctr);
    var u, t := l.img.p.funcs[e.func].kind.utype, l.img.p.funcs[e.func].kind.member;
    d := UnionDiscriminant(l.img.p, u, t);
    var s1 := Seg([LoadLitInt(d)], [], ctr);
    s2 := Gen(l.img.p, l.sc, e.args[0], false, 1, l.pos + 1, ctr);
    assert GenUnion(l.img.p, l.sc, u, t, e.args, false, l.pos, ctr) == s1.Cat(s2).Emit([Instr.MakeStruct(2)]);
    DynPlaced(l.img.code, l.pos, s1, s2, Instr.MakeStruct(2));
  }

  lemma OrdinaryRep(l: Place, fuel: nat, e: Expr, d: nat, y: Word)
    requires e.Call? && e.func < |l.img.p.funcs| && l.img.p.funcs[e.func].kind.MakeUnion?
    requires !UnionIsNullableStruct(l.img.p, l.img.p.funcs[e.func].kind.utype)
    requires d == UnionDiscriminant(l.img.p, l.img.p.funcs[e.func].kind.utype, l.img.p.funcs[e.func].kind.member)
    requires EvalAt(l, fuel, e).Ok? && (l.sc.isAction || SkipsSafely(l.img.p, l.sc, e)) && |e.args| == 1
    requires EvalAt(l, fuel, e.args[0]).Ok? && Rep(l.img.p, l.img.code.labels, y, EvalAt(l, fuel, e.args[0]).val)
    ensures Rep(l.img.p, l.img.code.labels, WStruct([WInt(d), y]), EvalAt(l, fuel, e).val)
  {
    MakeUnionEval(l, fuel, e);
    hide Eval, UnionIsNullableStruct, HasType;
  }

  /** A discriminant and an operand packed into a structure. */
  lemma {:induction false} AfterInt(l: Place, fuel: nat, arg: Expr, ctr: nat, d: int)
    returns (stk': seq<Word>, y: Word)
    requires l.Valid() && EvalAt(l, fuel, arg).Ok? && (l.sc.isAction || SkipsSafely(l.img.p, l.sc, arg))
    requires Embedded(l.img.code, l.pos, Seg([LoadLitInt(d)], [], ctr))
    requires var s2 := Gen(l.img.p, l.sc, arg, false, 1, l.pos + 1, ctr);
             && Embedded(l.img.code, l.pos + 1, s2)
             && l.pos + 1 + |s2.code| < |l.img.code.instrs|
             && l.img.code.instrs[l.pos + 1 + |s2.code|] == Instr.MakeStruct(2)
    ensures Rep(l.img.p, l.img.code.labels, y, EvalAt(l, fuel, arg).val)
    ensures Computes(l, false, l.pos + 2 + |Gen(l.img.p, l.sc, arg, false, 1, l.pos + 1, ctr).code|,
                     EvalAt(l, fuel, arg).env, EvalAt(l, fuel, arg).world, stk', [WStruct([WInt(d), y])])
    decreases fuel, 0, arg, 4
  {
    hide Computes, Embedded, RepEnv, Good, Eval, Gen, Rep;
    var r, s2 := EvalAt(l, fuel, arg), Gen(l.img.p, l.sc, arg, false, 1, l.pos + 1, ctr);
    Single(l, Seg([LoadLitInt(d)], [], ctr), WInt(d));
    var l2 := OnTop(l, l.pos + 1, l.env, l.w, l.stk, [WInt(d)]);
    var stk2;
    stk2, y := Correct(l2, fuel, arg, false, 1, ctr, 0);
    assert Produced(arg, 1) == 1;
    stk' := Unstack(l, l2, l.pos + 1 + |s2.code|, l.env, l.w, l.stk, [WInt(d)], r.env, r.world, stk2, [y]);
    assert [WInt(d)] + [y] == [WInt(d), y];
    ThenMakeStruct(l, l.pos + 1 + |s2.code|, r.env, r.world, stk', [WInt(d), y]);
  }

  // ----- Switches -----

  ghost function EvalCondsAt(l: Place, fuel: nat, cs: seq<Expr>): Result<nat> {
    EvalConds(l.img.p, l.sc, fuel, cs, l.env, l.w)
  }

  ghost predicate HasIfLabels(c: Code, first: nat, n: nat) {
    forall i :: first <= i < first + n ==> Generated(SwitchIf, i) in c.labels
  }

  /** The tests run until the first condition that holds and then jump to its label. */
  lemma {:induction false} CorrectConds(l: Place, fuel: nat, cs: seq<Expr>, first: nat, ctr: nat)
    returns (stk': seq<Word>)
    requires EvalCondsAt(l, fuel, cs).Ok?
    requires l.Valid() && Embedded(l.img.code, l.pos, GenConds(l.img.p, l.sc, cs, first, l.pos, ctr))
    requires HasIfLabels(l.img.code, first, |cs|)
    requires l.sc.isAction || AllSkipSafely(l.img.p, l.sc, cs)
    ensures var r := EvalCondsAt(l, fuel, cs);
            Computes(l, false,
                     if r.val < |cs| then l.img.code.labels[Generated(SwitchIf, first + r.val)]
                     else l.pos + |GenConds(l.img.p, l.sc, cs, first, l.pos, ctr).code|,
                     r.env, r.world, stk', [])
    decreases fuel, 0, cs, 3
  {
    hide Computes, Embedded, Good, RepEnv, Eval, EvalConds, Gen, GenConds, AllSkipSafely, SkipsSafely;
    CondsGen(l.img.p, l.sc, cs, first, l.pos, ctr);
    CondsEval(l, fuel, cs);
    if cs == [] {
      stk' := l.stk;
      Begin(l);
    } else {
      var r, s0 := EvalAt(l, fuel, cs[0]), GenAt(l, cs[0], false, 1, ctr);
      var jump := JumpIf(Generated(SwitchIf, first));
      var s1, at := s0.Emit([jump]), l.pos + |s0.code| + 1;
      var s2 := GenConds(l.img.p, l.sc, cs[1..], first + 1, at, s1.next);
      EmbeddedCat(l.img.code, l.pos, s1, s2);
      var stk1, x := First(l, fuel, cs[0], 1, ctr, [jump]);
      assert [jump][0] == l.img.code.instrs[l.pos + |s0.code| + 0];
      assert [] + [x] == [x];
      ThenJumpIf(l, l.pos + |s0.code|, r.env, r.world, stk1, [], r.val.i);
      stk' := stk1;
      if r.val.i == 0 {
        var l2 := OnTop(l, at, r.env, r.world, stk1, []);
        var r2 := EvalCondsAt(l2, fuel, cs[1..]);
        var stk2 := CorrectConds(l2, fuel, cs[1..], first + 1, s1.next);
        stk' := Chain(l, l2, false, if r2.val < |cs| - 1 then l.img.code.labels[Generated(SwitchIf, first + 1 + r2.val)] else at + |s2.code|,
                      r.env, r.world, stk1, r2.env, r2.world, stk2, []);
      }
    }
  }

  /** One step of the tests. */
  lemma CondsEval(l: Place, fuel: nat, cs: seq<Expr>)
    requires EvalCondsAt(l, fuel, cs).Ok? && (l.sc.isAction || AllSkipSafely(l.img.p, l.sc, cs))
    ensures cs == [] ==> EvalCondsAt(l, fuel, cs) == Ok(0, l.env, l.w)
    ensures cs != [] ==>
              var r := EvalAt(l, fuel, cs[0]);
              && r.Ok? && r.val.VInt?
              && (l.sc.isAction || (SkipsSafely(l.img.p, l.sc, cs[0]) && AllSkipSafely(l.img.p, l.sc, cs[1..])))
              && (r.val.i != 0 ==> EvalCondsAt(l, fuel, cs) == Ok(0, r.env, r.world))
              && (r.val.i == 0 ==>
                    var r2 := EvalConds(l.img.p, l.sc, fuel, cs[1..], r.env, r.world);
                    r2.Ok? && EvalCondsAt(l, fuel, cs) == Ok(1 + r2.val, r2.env, r2.world))
  {
    hide Eval, SkipsSafely;
  }

  /** Where the code of branch i stands: at its label, before a jump to the end unless it is last. */
  lemma {:induction false} BranchAt(
    l: Place, bs: seq<Expr>, tail: bool, first: nat, end: Label, pos: nat, ctr: nat, i: nat)
    returns (at: nat, ctr2: nat)
    requires Embedded(l.img.code, pos, GenBranches(l.img.p, l.sc, bs, tail, first, end, pos, ctr))
    requires i + 1 < |bs|
    ensures Generated(SwitchIf, first + i) in l.img.code.labels
    ensures l.img.code.labels[Generated(SwitchIf, first + i)] == at
    ensures var s := Gen(l.img.p, l.sc, bs[i], tail, 1, at, ctr2);
            && Embedded(l.img.code, at, s)
            && if i + 2 < |bs| then Has(l.img.code, at + |s.code|, [Jump(end)])
               else at + |s.code| == pos + |GenBranches(l.img.p, l.sc, bs, tail, first, end, pos, ctr).code|
    decreases bs
  {
    hide Embedded, Gen, GenBranches;
    BranchesGen(l.img.p, l.sc, bs, tail, first, end, pos, ctr);
    var c, jump := l.img.code, if |bs| > 2 then [Jump(end)] else [];
    var s := Gen(l.img.p, l.sc, bs[0], tail, 1, pos, ctr);
    var s0 := Seg([], [], ctr).Declare(Generated(SwitchIf, first), pos);
    var s1 := s0.Cat(s).Emit(jump);
    var s2 := GenBranches(l.img.p, l.sc, bs[1..], tail, first + 1, end, pos + |s1.code|, s1.next);
    EmbeddedCat(c, pos, s1, s2);
    if i > 0 {
      at, ctr2 := BranchAt(l, bs[1..], tail, first + 1, end, pos + |s1.code|, s1.next, i - 1);
    } else {
      at, ctr2 := pos, ctr;
      assert |s0.code| == 0 && s0.Cat(s).code == s.code;
      EmbeddedEmit(c, pos, s0.Cat(s), jump);
      EmbeddedCat(c, pos, s0, s);
      EmbeddedDeclare(c, pos, Seg([], [], ctr), Generated(SwitchIf, first), pos);
      if |bs| == 2 { BranchesGen(l.img.p, l.sc, bs[1..], tail, first + 1, end, pos + |s1.code|, s1.next); }
    }
  }

  lemma SwitchPlaced(c: Code, pos: nat, s: SwitchCode)
    requires Embedded(c, pos, s.All())
    requires s.at == pos + |s.tests.code| + |s.other.code| + 1
    ensures s.end in c.labels && c.labels[s.end] == s.endPos
    ensures Embedded(c, pos, s.tests) && Embedded(c, pos + |s.tests.code|, s.other) && Embedded(c, s.at, s.rest)
    ensures Has(c, pos + |s.tests.code| + |s.other.code|, [Jump(s.end)])
  {
    hide Embedded;
    var front := s.tests.Cat(s.other).Emit([Jump(s.end)]);
    EmbeddedDeclare(c, pos, front.Cat(s.rest), s.end, s.endPos);
    EmbeddedCat(c, pos, front, s.rest);
    EmbeddedEmit(c, pos, s.tests.Cat(s.other), [Jump(s.end)]);
    EmbeddedCat(c, pos, s.tests, s.other);
  }

  lemma SwitchEval(l: Place, fuel: nat, e: Expr)
    requires e.Switch? && EvalAt(l, fuel, e).Ok? && (l.sc.isAction || SkipsSafely(l.img.p, l.sc, e))
    ensures |e.branches| == |e.conds| + 1
    ensures var r := EvalCondsAt(l, fuel, e.conds);
            && r.Ok? && Eval(l.img.p, l.sc, fuel, e.branches[r.val], r.env, r.world) == EvalAt(l, fuel, e)
            && (l.sc.isAction || (AllSkipSafely(l.img.p, l.sc, e.conds) && SkipsSafely(l.img.p, l.sc, e.branches[r.val])))
  {
    if !l.sc.isAction { AllSkipSafelyAt(l.img.p, l.sc, e.branches, EvalCondsAt(l, fuel, e.conds).val); }
  }

  lemma {:induction false} CorrectSwitch(l: Place, fuel: nat, e: Expr, tail: bool, ctr: nat, k: nat)
    returns (stk': seq<Word>, x: Word)
    requires e.Switch? && Starts(l, fuel, e, tail, 1, ctr, k)
    ensures Simulates(l, fuel, e, tail, 1, ctr, stk', x)
    decreases fuel, 0, e, 1
  {
    SwitchEval(l, fuel, e);
    var s := SwitchReady(l, e, tail, ctr);
    hide Computes, Embedded, Good, Rep, RepEnv, Eval, Gen, GenConds, GenBranches, EvalConds, SkipsSafely, LeadsToRet;
    hide Has, HasCaller, HasIfLabels, GenAt;
    stk', x := SwitchRun(l, fuel, e, tail, ctr, s, k);
  }

  lemma {:induction false} SwitchRun(
    l: Place, fuel: nat, e: Expr, tail: bool, ctr: nat, s: SwitchCode, k: nat)
    returns (stk': seq<Word>, x: Word)
    requires e.Switch? && |e.branches| == |e.conds| + 1 && l.Valid() && EvalCondsAt(l, fuel, e.conds).Ok?
    requires var r := EvalCondsAt(l, fuel, e.conds);
             && Eval(l.img.p, l.sc, fuel, e.branches[r.val], r.env, r.world).Ok?
             && (l.sc.isAction || (AllSkipSafely(l.img.p, l.sc, e.conds) && SkipsSafely(l.img.p, l.sc, e.branches[r.val])))
    requires s.end in l.img.code.labels && l.img.code.labels[s.end] == s.endPos
    requires s.tests == GenConds(l.img.p, l.sc, e.conds, ctr, l.pos, ctr + |e.conds| + 1)
    requires Embedded(l.img.code, l.pos, s.tests)
    requires var at := l.pos + |s.tests.code|;
             && s.other == Gen(l.img.p, l.sc, e.branches[|e.conds|], tail, 1, at, s.tests.next)
             && Embedded(l.img.code, at, s.other) && Has(l.img.code, at + |s.other.code|, [Jump(s.end)])
    requires s.rest == GenBranches(l.img.p, l.sc, e.branches, tail, ctr, s.end, s.at, s.other.next)
    requires Embedded(l.img.code, s.at, s.rest) && s.endPos == s.at + |s.rest.code|
    requires HasIfLabels(l.img.code, ctr, |e.conds|)
    requires tail ==> HasCaller(l.stk, l.home) && LeadsToRet(l.img.code, s.endPos, k)
    ensures var r := EvalCondsAt(l, fuel, e.conds);
            var r2 := Eval(l.img.p, l.sc, fuel, e.branches[r.val], r.env, r.world);
            Rep(l.img.p, l.img.code.labels, x, r2.val)
            && Computes(l, tail, s.endPos, r2.env, r2.world, stk', [x])
    decreases fuel, 0, e, 0, 1
  {
    hide Computes, Embedded, Good, Rep, RepEnv, Eval, Gen, GenConds, GenBranches, EvalConds, SkipsSafely, LeadsToRet;
    hide Has, HasCaller, HasIfLabels;
    var stk1 := CorrectConds(l, fuel, e.conds, ctr, ctr + |e.conds| + 1);
    stk', x := CorrectBranches(l, fuel, e, tail, ctr, s, EvalCondsAt(l, fuel, e.conds), stk1, k);
  }

  lemma SwitchGen(l: Place, e: Expr, tail: bool, ctr: nat)
    requires e.Switch? && |e.branches| == |e.conds| + 1
    ensures GenAt(l, e, tail, 1, ctr) == GenSwitch(l.img.p, l.sc, e, tail, l.pos, ctr).All()
  {}

  lemma SwitchReady(l: Place, e: Expr, tail: bool, ctr: nat) returns (s: SwitchCode)
    requires e.Switch? && |e.branches| == |e.conds| + 1 && Embedded(l.img.code, l.pos, GenAt(l, e, tail, 1, ctr))
    ensures l.pos + |GenAt(l, e, tail, 1, ctr).code| == s.endPos && s.endPos == s.at + |s.rest.code|
    ensures s.tests == GenConds(l.img.p, l.sc, e.conds, ctr, l.pos, ctr + |e.conds| + 1)
    ensures s.other == Gen(l.img.p, l.sc, e.branches[|e.conds|], tail, 1, l.pos + |s.tests.code|, s.tests.next)
    ensures s.rest == GenBranches(l.img.p, l.sc, e.branches, tail, ctr, s.end, s.at, s.other.next)
    ensures s.end in l.img.code.labels && l.img.code.labels[s.end] == s.endPos
    ensures Embedded(l.img.code, l.pos, s.tests) && Embedded(l.img.code, l.pos + |s.tests.code|, s.other)
    ensures Embedded(l.img.code, s.at, s.rest) && HasIfLabels(l.img.code, ctr, |e.conds|)
    ensures Has(l.img.code, l.pos + |s.tests.code| + |s.other.code|, [Jump(s.end)])
  {
    hide Embedded, Gen, GenConds, GenBranches;
    s := GenSwitch(l.img.p, l.sc, e, tail, l.pos, ctr);
    SwitchGen(l, e, tail, ctr);
    hide GenSwitch;
    SwitchPlaced(l.img.code, l.pos, s);
    BranchLabels(l, e.branches, tail, ctr, s.end, s.at, s.other.next);
  }

  lemma {:induction false} CorrectBranches(
    l: Place, fuel: nat, e: Expr, tail: bool, ctr: nat, s: SwitchCode, r: Result<nat>, stk1: seq<Word>,
    k: nat)
    returns (stk': seq<Word>, x: Word)
    requires e.Switch? && |e.branches| == |e.conds| + 1 && l.Valid() && r.Ok? && r.val <= |e.conds|
    requires Eval(l.img.p, l.sc, fuel, e.branches[r.val], r.env, r.world).Ok?
    requires l.sc.isAction || SkipsSafely(l.img.p, l.sc, e.branches[r.val])
    requires s.end in l.img.code.labels && l.img.code.labels[s.end] == s.endPos
    requires var at := l.pos + |s.tests.code|;
             && s.other == Gen(l.img.p, l.sc, e.branches[|e.conds|], tail, 1, at, s.tests.next)
             && Embedded(l.img.code, at, s.other) && Has(l.img.code, at + |s.other.code|, [Jump(s.end)])
    requires s.rest == GenBranches(l.img.p, l.sc, e.branches, tail, ctr, s.end, s.at, s.other.next)
    requires Embedded(l.img.code, s.at, s.rest) && s.endPos == s.at + |s.rest.code|
    requires HasIfLabels(l.img.code, ctr, |e.conds|)
    requires Computes(l, false,
                      if r.val < |e.conds| then l.img.code.labels[Generated(SwitchIf, ctr + r.val)]
                      else l.pos + |s.tests.code|, r.env, r.world, stk1, [])
    requires tail ==> HasCaller(l.stk, l.home) && LeadsToRet(l.img.code, s.endPos, k)
    ensures var r2 := Eval(l.img.p, l.sc, fuel, e.branches[r.val], r.env, r.world);
            Rep(l.img.p, l.img.code.labels, x, r2.val)
            && Computes(l, tail, s.endPos, r2.env, r2.world, stk', [x])
    decreases fuel, 0, e, 0, 0
  {
    hide Computes, Embedded, Good, Rep, RepEnv, Eval, Gen, GenBranches, SkipsSafely, LeadsToRet, Has, HasCaller;
    if r.val < |e.conds| {
      var at, ctr2 := BranchAt(l, e.branches, tail, ctr, s.end, s.at, s.other.next, r.val);
      stk', x := CorrectBranch(l, fuel, e.branches[r.val], tail, at, ctr2, s.end, s.endPos, r.env, r.world, stk1, r.val + 1 < |e.conds|, k);
    } else {
      stk', x := CorrectBranch(l, fuel, e.branches[|e.conds|], tail, l.pos + |s.tests.code|, s.tests.next, s.end, s.endPos, r.env, r.world, stk1, true, k);
    }
  }

  lemma BranchLabels(l: Place, bs: seq<Expr>, tail: bool, first: nat, end: Label, pos: nat, ctr: nat)
    requires bs != [] && Embedded(l.img.code, pos, GenBranches(l.img.p, l.sc, bs, tail, first, end, pos, ctr))
    ensures HasIfLabels(l.img.code, first, |bs| - 1)
  {
    hide Gen, GenBranches, Embedded;
    forall i | first <= i < first + |bs| - 1 ensures Generated(SwitchIf, i) in l.img.code.labels {
      var _, _ := BranchAt(l, bs, tail, first, end, pos, ctr, i - first);
    }
  }

  /** A branch runs and then goes to the end of the switch, by a jump unless it is the last one. */
  lemma {:induction false} CorrectBranch(
    l: Place, fuel: nat, e: Expr, tail: bool, at: nat, ctr: nat, end: Label, endPos: nat, env1: Env,
    w1: World, stk1: seq<Word>, jumps: bool, k: nat)
    returns (stk': seq<Word>, x: Word)
    requires l.Valid() && Computes(l, false, at, env1, w1, stk1, [])
    requires Eval(l.img.p, l.sc, fuel, e, env1, w1).Ok? && (l.sc.isAction || SkipsSafely(l.img.p, l.sc, e))
    requires Embedded(l.img.code, at, Gen(l.img.p, l.sc, e, tail, 1, at, ctr))
    requires end in l.img.code.labels && l.img.code.labels[end] == endPos
    requires var after := at + |Gen(l.img.p, l.sc, e, tail, 1, at, ctr).code|;
             if jumps then Has(l.img.code, after, [Jump(end)]) else after == endPos
    requires tail ==> HasCaller(l.stk, l.home) && LeadsToRet(l.img.code, endPos, k)
    ensures Rep(l.img.p, l.img.code.labels, x, Eval(l.img.p, l.sc, fuel, e, env1, w1).val)
    ensures Computes(l, tail, endPos, Eval(l.img.p, l.sc, fuel, e, env1, w1).env,
                     Eval(l.img.p, l.sc, fuel, e, env1, w1).world, stk', [x])
    decreases fuel, 0, e, 4
  {
    hide Computes, Embedded, Good, Rep, RepEnv, Eval, Gen;
    var s, r := Gen(l.img.p, l.sc, e, tail, 1, at, ctr), Eval(l.img.p, l.sc, fuel, e, env1, w1);
    var after, k2 := at + |s.code|, if jumps then k + 1 else k;
    if jumps { assert [Jump(end)][0] == l.img.code.instrs[after + 0]; }
    var l2 := OnTop(l, at, env1, w1, stk1, []);
    ReadyOnTop(l, l2, s, tail, env1, w1, stk1, k2);
    assert Produced(e, 1) == 1;
    var stk2;
    stk2, x := Correct(l2, fuel, e, tail, 1, ctr, k2);
    stk' := Chain(l, l2, tail, after, env1, w1, stk1, r.env, r.world, stk2, [x]);
    if tail { TailEnd(l, after, endPos, r.env, r.world, stk', [x]); }
    else if jumps { ThenJump(l, after, r.env, r.world, stk', [x]); }
  }

  /** A tail position never gets to its end. */
  lemma TailEnd(l: Place, a: nat, b: nat, env': Env, w': World, stk': seq<Word>, xs: seq<Word>)
    requires Computes(l, true, a, env', w', stk', xs)
    ensures Computes(l, true, b, env', w', stk', xs)
  {}
}
