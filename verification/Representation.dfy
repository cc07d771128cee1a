/** What it means for machine states to represent evaluator states, and the small steps of the proof
    that generated code computes what the evaluator says. */
module Representation {
  import opened Lang
  import opened Machine
  import opened CodeGen
  import opened Purity
  import opened Skipping

  /** A program, the code of the whole program and the label counter each function was generated at. */
  datatype Image = Image(p: Program, code: Code, ctrs: seq<nat>)

  ghost predicate Embedded(c: Code, pos: nat, s: Seg) {
    && pos + |s.code| <= |c.instrs|
    && c.instrs[pos..pos + |s.code|] == s.code
    && (forall d | d in s.decls :: d.name in c.labels && c.labels[d.name] == d.at)
  }

  /** These instructions stand at `at`. */
  ghost predicate Has(c: Code, at: nat, more: seq<Instr>) {
    at + |more| <= |c.instrs| && forall i :: 0 <= i < |more| ==> c.instrs[at + i] == more[i]
  }

  lemma HasSplit(c: Code, at: nat, a: seq<Instr>, b: seq<Instr>)
    requires Has(c, at, a + b)
    ensures Has(c, at, a) && Has(c, at + |a|, b)
  {
    forall i | 0 <= i < |a| ensures c.instrs[at + i] == a[i] { assert (a + b)[i] == a[i]; }
    forall i | 0 <= i < |b| ensures c.instrs[at + |a| + i] == b[i] { assert (a + b)[|a| + i] == b[i]; }
  }

  lemma EmbeddedCat(c: Code, pos: nat, a: Seg, b: Seg)
    requires Embedded(c, pos, a.Cat(b))
    ensures Embedded(c, pos, a) && Embedded(c, pos + |a.code|, b)
  {
    var all := c.instrs[pos..pos + |a.code| + |b.code|];
    assert all[..|a.code|] == c.instrs[pos..pos + |a.code|];
    assert all[|a.code|..] == c.instrs[pos + |a.code|..pos + |a.code| + |b.code|];
    assert a.decls <= a.decls + b.decls;
    forall d | d in b.decls ensures d in a.decls + b.decls {}
  }

  lemma EmbeddedEmit(c: Code, pos: nat, a: Seg, more: seq<Instr>)
    requires Embedded(c, pos, a.Emit(more))
    ensures Embedded(c, pos, a)
    ensures Has(c, pos + |a.code|, more)
  {
    var all := c.instrs[pos..pos + |a.code| + |more|];
    assert all[..|a.code|] == c.instrs[pos..pos + |a.code|];
    forall i | 0 <= i < |more| ensures c.instrs[pos + |a.code| + i] == more[i] {
      assert all[|a.code| + i] == more[i];
    }
  }

  lemma EmbeddedDeclare(c: Code, pos: nat, a: Seg, l: Label, at: nat)
    requires Embedded(c, pos, a.Declare(l, at))
    ensures Embedded(c, pos, a) && l in c.labels && c.labels[l] == at
  {
    assert Decl(l, at) in a.Declare(l, at).decls;
    forall d | d in a.decls ensures d in a.Declare(l, at).decls {}
  }

  // ----- How words represent values -----

  /** A struct without fields may be any word: the code never looks at it. */
  ghost predicate Rep(p: Program, labels: map<Label, nat>, w: Word, v: Value)
    decreases v
  {
    match v
    case VInt(i) => w == WInt(i)
    case VFunc(f, bound) =>
      FuncLabel(f) in labels
      && ((bound == [] && w == WIp(labels[FuncLabel(f)]))
          || (w.WStruct? && |w.fields| == |bound| + 1 && w.fields[|bound|] == WIp(labels[FuncLabel(f)])
              && forall i :: 0 <= i < |bound| ==> Rep(p, labels, w.fields[i], bound[i])))
    case VStruct(_, fields) =>
      if fields == [] then true
      else if |fields| == 1 then Rep(p, labels, w, fields[0])
      else w.WStruct? && |w.fields| == |fields|
           && forall i :: 0 <= i < |fields| ==> Rep(p, labels, w.fields[i], fields[i])
    case VUnion(u, t, val) =>
      if UnionIsNullableStruct(p, u) then
        if StructIsTagType(p, t) then w == WNull else w.WStruct? && Rep(p, labels, w, val)
      else
        w.WStruct? && |w.fields| == 2 && w.fields[0] == WInt(UnionDiscriminant(p, u, t))
        && Rep(p, labels, w.fields[1], val)
  }

  ghost predicate RepAll(img: Image, ws: seq<Word>, vs: seq<Value>) {
    |ws| == |vs| && forall i :: 0 <= i < |vs| ==> Rep(img.p, img.code.labels, ws[i], vs[i])
  }

  /** The frame at `home` holds a representation of every constant assigned so far, except for those
      declared in operands without code. */
  ghost predicate RepEnv(img: Image, sc: Scope, stk: seq<Word>, home: nat, env: Env) {
    && home + |sc.consts.All()| <= |stk|
    && (forall id | id in env && id !in Dead(img.p, sc) ::
          sc.consts.Has(id) && Rep(img.p, img.code.labels, stk[home + ConstOffset(sc.consts, id)], env[id]))
  }

  /** Only the n slots of the frame at `home` may differ. */
  ghost predicate Frame(stk: seq<Word>, stk': seq<Word>, home: nat, n: nat) {
    |stk'| == |stk|
    && forall i :: 0 <= i < |stk| && (i < home || home + n <= i) ==> stk'[i] == stk[i]
  }

  // ----- What is assumed of the whole program -----

  /** What the generator needs to fit counts into its 8 bit operands. */
  predicate FuncFits(p: Program, f: FuncId) {
    p.IsUser(f) ==>
      |p.funcs[f].kind.consts.Inputs()| <= 255 && |p.funcs[f].kind.consts.bound| <= 254
  }

  predicate Fits(p: Program) {
    && (forall f | 0 <= f < |p.funcs| :: FuncFits(p, f))
    && (forall t | 0 <= t < |p.types| :: p.IsStruct(t) ==> |p.types[t].fields| <= 255)
  }

  /** The code of function f stands at its label. */
  ghost predicate Linked(img: Image, f: FuncId) {
    img.p.IsUser(f) ==>
      && f < |img.ctrs|
      && FuncLabel(f) in img.code.labels
      && Embedded(img.code, img.code.labels[FuncLabel(f)],
                  GenFunc(img.p, f, img.code.labels[FuncLabel(f)], img.ctrs[f]))
  }

  ghost predicate Good(img: Image) {
    && Fits(img.p)
    && SkipsSafelyAnywhere(img.p)
    && (forall f | 0 <= f < |img.p.funcs| :: Linked(img, f))
  }

  /** From pos only k jumps lead to a return. */
  ghost predicate LeadsToRet(c: Code, pos: nat, k: nat)
    decreases k
  {
    && pos < |c.instrs|
    && if k == 0 then c.instrs[pos] == Ret
       else c.instrs[pos].Jump? && c.instrs[pos].target in c.labels
            && LeadsToRet(c, c.labels[c.instrs[pos].target], k - 1)
  }

  /** The frame at home knows where to return to. */
  ghost predicate HasCaller(stk: seq<Word>, home: nat) {
    2 <= home <= |stk| && stk[home - 2].WIp? && stk[home - 1].WHome?
  }

  /** The caller's state once the frame at home has returned x. */
  ghost function Returned(stk: seq<Word>, home: nat, x: Word, w: World): State
    requires HasCaller(stk, home)
  {
    Running(stk[home - 2].ip, stk[..home - 2] + [x], stk[home - 1].home, w)
  }

  /** A running machine: the instruction pointer is at pos and the frame at home represents env. */
  datatype Place =
    Place(img: Image, sc: Scope, pos: nat, stk: seq<Word>, home: nat, env: Env, w: World)
  {
    function State(): State {
      Running(pos, stk, home, w)
    }

    ghost predicate Valid() {
      Good(img) && ScopeOk(img.p, sc) && RepEnv(img, sc, stk, home, env)
    }
  }

  /** The code s stands here; behind a tail position k jumps lead to a return. */
  ghost predicate Ready(l: Place, s: Seg, tail: bool, k: nat) {
    && l.Valid()
    && Embedded(l.img.code, l.pos, s)
    && (tail ==> HasCaller(l.stk, l.home) && LeadsToRet(l.img.code, l.pos + |s.code|, k))
  }

  /** Running from l ends, in a tail position, in the caller with xs[0] as the answer and otherwise
      at `end` with the words xs on top of a stack that differs from the old one in the slots of
      the frame only and represents the new environment. */
  ghost predicate Computes(
    l: Place, tail: bool, end: nat, env': Env, w': World, stk': seq<Word>, xs: seq<Word>)
  {
    if tail then
      HasCaller(l.stk, l.home) && |xs| == 1
      && Reaches(l.img.code, l.State(), Returned(l.stk, l.home, xs[0], w'))
    else
      && Frame(l.stk, stk', l.home, |l.sc.consts.All()|)
      && RepEnv(l.img, l.sc, stk', l.home, env')
      && Reaches(l.img.code, l.State(), Running(end, stk' + xs, l.home, w'))
  }

  // ----- Small steps used everywhere -----

  /** Follows the jumps after a tail position and returns. */
  lemma FollowToRet(c: Code, from: State, pos: nat, stk: seq<Word>, home: nat, x: Word, w: World, k: nat)
    requires LeadsToRet(c, pos, k) && HasCaller(stk, home)
    requires Reaches(c, from, Running(pos, stk + [x], home, w))
    ensures Reaches(c, from, Returned(stk, home, x, w))
    decreases k
  {
    var s := Running(pos, stk + [x], home, w);
    ReachStep(c, from, s, c.instrs[pos]);
    if k > 0 {
      FollowToRet(c, from, c.labels[c.instrs[pos].target], stk, home, x, w, k - 1);
    } else {
      assert (stk + [x])[..home - 2] == stk[..home - 2];
      assert Exec(c, s, Ret) == Returned(stk, home, x, w);
    }
  }

  lemma FrameReturned(stk: seq<Word>, stk': seq<Word>, home: nat, n: nat, x: Word, w: World)
    requires Frame(stk, stk', home, n) && HasCaller(stk, home)
    ensures HasCaller(stk', home) && Returned(stk', home, x, w) == Returned(stk, home, x, w)
  {
    assert stk'[..home - 2] == stk[..home - 2];
  }

  /** Turns a computation that ends before a return into one that returns. */
  lemma Finish(l: Place, end: nat, env': Env, w': World, stk': seq<Word>, x: Word, k: nat)
    requires Computes(l, false, end, env', w', stk', [x])
    requires HasCaller(l.stk, l.home) && LeadsToRet(l.img.code, end, k)
    ensures Computes(l, true, end, env', w', stk', [x])
  {
    FrameReturned(l.stk, stk', l.home, |l.sc.consts.All()|, x, w');
    FollowToRet(l.img.code, l.State(), end, stk', l.home, x, w', k);
  }

  /** Nothing has been computed yet. */
  lemma Begin(l: Place)
    requires l.Valid()
    ensures Computes(l, false, l.pos, l.env, l.w, l.stk, [])
  {
    assert l.stk + [] == l.stk;
    ReachRefl(l.img.code, l.State());
  }

  /** One more instruction, given what it does to the topmost words. */
  lemma Then(
    l: Place, at: nat, i: Instr, env': Env, w': World, w2: World, stk': seq<Word>, xs: seq<Word>,
    at2: nat, ys: seq<Word>)
    requires Computes(l, false, at, env', w', stk', xs)
    requires at < |l.img.code.instrs| && l.img.code.instrs[at] == i
    requires Exec(l.img.code, Running(at, stk' + xs, l.home, w'), i) == Running(at2, stk' + ys, l.home, w2)
    ensures Computes(l, false, at2, env', w2, stk', ys)
  {
    ReachStep(l.img.code, l.State(), Running(at, stk' + xs, l.home, w'), i);
  }

  lemma TopOf(stk: seq<Word>, xs: seq<Word>, x: Word)
    ensures stk + (xs + [x]) != [] && Top(stk + (xs + [x])) == x
    ensures Drop(stk + (xs + [x]), 1) == stk + xs
    ensures forall y :: (stk + xs) + [y] == stk + (xs + [y])
  {
    forall y ensures (stk + xs) + [y] == stk + (xs + [y]) {}
  }

  /** An instruction that pushes y. */
  lemma ThenPush(
    l: Place, at: nat, i: Instr, env': Env, w': World, stk': seq<Word>, xs: seq<Word>, y: Word)
    requires Computes(l, false, at, env', w', stk', xs)
    requires at < |l.img.code.instrs| && l.img.code.instrs[at] == i
    requires Exec(l.img.code, Running(at, stk' + xs, l.home, w'), i)
          == Running(at + 1, stk' + xs + [y], l.home, w')
    ensures Computes(l, false, at + 1, env', w', stk', xs + [y])
  {
    assert stk' + xs + [y] == stk' + (xs + [y]);
    Then(l, at, i, env', w', w', stk', xs, at + 1, xs + [y]);
  }

  /** An instruction that replaces the topmost word x by y. */
  lemma ThenReplace(
    l: Place, at: nat, i: Instr, env': Env, w': World, stk': seq<Word>, xs: seq<Word>, x: Word, y: Word)
    requires Computes(l, false, at, env', w', stk', xs + [x])
    requires at < |l.img.code.instrs| && l.img.code.instrs[at] == i
    requires Exec(l.img.code, Running(at, stk' + (xs + [x]), l.home, w'), i)
          == Running(at + 1, Drop(stk' + (xs + [x]), 1) + [y], l.home, w')
    ensures Computes(l, false, at + 1, env', w', stk', xs + [y])
  {
    TopOf(stk', xs, x);
    Then(l, at, i, env', w', w', stk', xs + [x], at + 1, xs + [y]);
  }

  lemma ThenDup(l: Place, at: nat, env': Env, w': World, stk': seq<Word>, xs: seq<Word>, x: Word)
    requires Computes(l, false, at, env', w', stk', xs + [x])
    requires at < |l.img.code.instrs| && l.img.code.instrs[at] == Dup
    ensures Computes(l, false, at + 1, env', w', stk', xs + [x] + [x])
  {
    TopOf(stk', xs, x);
    ThenPush(l, at, Dup, env', w', stk', xs + [x], x);
  }

  lemma ThenPop(l: Place, at: nat, env': Env, w': World, stk': seq<Word>, xs: seq<Word>, x: Word)
    requires Computes(l, false, at, env', w', stk', xs + [x])
    requires at < |l.img.code.instrs| && l.img.code.instrs[at] == Instr.Pop
    ensures Computes(l, false, at + 1, env', w', stk', xs)
  {
    TopOf(stk', xs, x);
    Then(l, at, Instr.Pop, env', w', w', stk', xs + [x], at + 1, xs);
  }

  /** Storing the topmost word x as a representation of v. */
  lemma ThenStore(
    l: Place, at: nat, env': Env, w': World, stk': seq<Word>, xs: seq<Word>, x: Word, id: ConstId, v: Value)
    returns (stk2: seq<Word>)
    requires Computes(l, false, at, env', w', stk', xs + [x])
    requires at < |l.img.code.instrs|
    requires l.img.code.instrs[at] == StackStore(ConstOffset(l.sc.consts, id))
    requires l.sc.consts.Has(id) && Rep(l.img.p, l.img.code.labels, x, v)
    ensures Computes(l, false, at + 1, env'[id := v], w', stk2, xs)
  {
    var o := ConstOffset(l.sc.consts, id);
    stk2 := Store(l.img, l.sc, stk', l.home, env', id, x, v);
    TopOf(stk', xs, x);
    assert (stk' + xs)[l.home + o := x] == stk2 + xs;
    ReachStep(l.img.code, l.State(), Running(at, stk' + (xs + [x]), l.home, w'), StackStore(o));
  }

  lemma RepEnvPush(img: Image, sc: Scope, stk: seq<Word>, home: nat, env: Env, xs: seq<Word>)
    requires home + |sc.consts.All()| <= |stk|
    ensures RepEnv(img, sc, stk + xs, home, env) <==> RepEnv(img, sc, stk, home, env)
  {
    forall id | id in env && sc.consts.Has(id)
      ensures (stk + xs)[home + ConstOffset(sc.consts, id)] == stk[home + ConstOffset(sc.consts, id)]
    {}
  }

  /** A computation on top of extra words leaves them alone. */
  lemma PeelFrame(
    img: Image, sc: Scope, stk: seq<Word>, xs: seq<Word>, stk2: seq<Word>, home: nat, env: Env)
    returns (stk': seq<Word>)
    requires home + |sc.consts.All()| <= |stk|
    requires Frame(stk + xs, stk2, home, |sc.consts.All()|) && RepEnv(img, sc, stk2, home, env)
    ensures stk2 == stk' + xs
    ensures Frame(stk, stk', home, |sc.consts.All()|) && RepEnv(img, sc, stk', home, env)
  {
    stk' := stk2[..|stk|];
    assert stk2[|stk|..] == xs;
    RepEnvPush(img, sc, stk', home, env, xs);
  }

  lemma FrameTrans(a: seq<Word>, b: seq<Word>, c: seq<Word>, home: nat, n: nat)
    requires Frame(a, b, home, n) && Frame(b, c, home, n)
    ensures Frame(a, c, home, n)
  {}

  /** Storing a representation of v makes the frame represent the updated environment. */
  lemma Store(
    img: Image, sc: Scope, stk: seq<Word>, home: nat, env: Env, id: ConstId, x: Word, v: Value)
    returns (stk': seq<Word>)
    requires RepEnv(img, sc, stk, home, env) && sc.consts.Has(id)
    requires Rep(img.p, img.code.labels, x, v)
    ensures stk' == stk[home + ConstOffset(sc.consts, id) := x]
    ensures Frame(stk, stk', home, |sc.consts.All()|) && RepEnv(img, sc, stk', home, env[id := v])
  {
    stk' := stk[home + ConstOffset(sc.consts, id) := x];
    forall y | y in env && y !in Dead(img.p, sc) && y != id
      ensures ConstOffset(sc.consts, y) != ConstOffset(sc.consts, id)
    {}
  }

  /** The place reached when the words xs have been computed. */
  lemma OnTop(l: Place, at: nat, env': Env, w': World, stk': seq<Word>, xs: seq<Word>) returns (l2: Place)
    requires l.Valid() && Computes(l, false, at, env', w', stk', xs)
    ensures l2 == l.(pos := at, stk := stk' + xs, env := env', w := w') && l2.Valid()
  {
    l2 := l.(pos := at, stk := stk' + xs, env := env', w := w');
    RepEnvPush(l.img, l.sc, stk', l.home, env', xs);
  }

  /** Two computations in a row; the second runs on top of the words of the first. */
  lemma Unstack(
    l: Place, l2: Place, end: nat, env1: Env, w1: World, stk1: seq<Word>, xs: seq<Word>,
    env2: Env, w2: World, stk2: seq<Word>, ys: seq<Word>)
    returns (stk': seq<Word>)
    requires l.Valid() && Computes(l, false, l2.pos, env1, w1, stk1, xs)
    requires l2 == l.(pos := l2.pos, stk := stk1 + xs, env := env1, w := w1)
    requires Computes(l2, false, end, env2, w2, stk2, ys)
    ensures Computes(l, false, end, env2, w2, stk', xs + ys)
  {
    stk' := PeelFrame(l.img, l.sc, stk1, xs, stk2, l.home, env2);
    FrameTrans(l.stk, stk1, stk', l.home, |l.sc.consts.All()|);
    assert stk2 + ys == stk' + (xs + ys);
    ReachTrans(l.img.code, l.State(), l2.State(), Running(end, stk2 + ys, l.home, w2));
  }

  /** As Unstack for a first computation that leaves no words; the second may be a tail position. */
  lemma Chain(
    l: Place, l2: Place, tail: bool, end: nat, env1: Env, w1: World, stk1: seq<Word>,
    env2: Env, w2: World, stk2: seq<Word>, ys: seq<Word>)
    returns (stk': seq<Word>)
    requires l.Valid() && Computes(l, false, l2.pos, env1, w1, stk1, [])
    requires l2 == l.(pos := l2.pos, stk := stk1 + [], env := env1, w := w1)
    requires Computes(l2, tail, end, env2, w2, stk2, ys)
    ensures Computes(l, tail, end, env2, w2, stk', ys)
  {
    assert stk1 + [] == stk1 && [] + ys == ys;
    if tail {
      assert Frame(stk1, l.stk, l.home, |l.sc.consts.All()|);
      FrameReturned(stk1, l.stk, l.home, |l.sc.consts.All()|, ys[0], w2);
      ReachTrans(l.img.code, l.State(), l2.State(), Returned(stk1, l.home, ys[0], w2));
      stk' := stk1;
    } else {
      stk' := Unstack(l, l2, end, env1, w1, stk1, [], env2, w2, stk2, ys);
    }
  }

  /** A jump that is taken. */
  lemma ThenJump(l: Place, at: nat, env': Env, w': World, stk': seq<Word>, xs: seq<Word>)
    requires Computes(l, false, at, env', w', stk', xs)
    requires at < |l.img.code.instrs| && l.img.code.instrs[at].Jump?
    requires l.img.code.instrs[at].target in l.img.code.labels
    ensures Computes(l, false, l.img.code.labels[l.img.code.instrs[at].target], env', w', stk', xs)
  {
    Then(l, at, l.img.code.instrs[at], env', w', w', stk', xs,
         l.img.code.labels[l.img.code.instrs[at].target], xs);
  }

  /** A conditional jump on the topmost word. */
  lemma ThenJumpIf(l: Place, at: nat, env': Env, w': World, stk': seq<Word>, xs: seq<Word>, i: int)
    requires Computes(l, false, at, env', w', stk', xs + [WInt(i)])
    requires at < |l.img.code.instrs| && l.img.code.instrs[at].JumpIf?
    requires l.img.code.instrs[at].target in l.img.code.labels
    ensures Computes(
              l, false, if i != 0 then l.img.code.labels[l.img.code.instrs[at].target] else at + 1,
              env', w', stk', xs)
  {
    TopOf(stk', xs, WInt(i));
    Then(l, at, l.img.code.instrs[at], env', w', w', stk', xs + [WInt(i)],
         if i != 0 then l.img.code.labels[l.img.code.instrs[at].target] else at + 1, xs);
  }

  lemma ThenLoadInt(l: Place, at: nat, i: int, env': Env, w': World, stk': seq<Word>, xs: seq<Word>)
    requires Computes(l, false, at, env', w', stk', xs)
    requires at < |l.img.code.instrs| && l.img.code.instrs[at] == LoadLitInt(i)
    ensures Computes(l, false, at + 1, env', w', stk', xs + [WInt(i)])
  {
    ThenPush(l, at, LoadLitInt(i), env', w', stk', xs, WInt(i));
  }

  lemma ThenField(
    l: Place, at: nat, f: nat, env': Env, w': World, stk': seq<Word>, xs: seq<Word>, x: Word)
    requires Computes(l, false, at, env', w', stk', xs + [x])
    requires at < |l.img.code.instrs| && l.img.code.instrs[at] == StructLoadField(f)
    requires x.WStruct? && f < |x.fields|
    ensures Computes(l, false, at + 1, env', w', stk', xs + [x.fields[f]])
  {
    TopOf(stk', xs, x);
    ThenReplace(l, at, StructLoadField(f), env', w', stk', xs, x, x.fields[f]);
  }

  lemma ThenCheckNull(l: Place, at: nat, env': Env, w': World, stk': seq<Word>, xs: seq<Word>, x: Word)
    requires Computes(l, false, at, env', w', stk', xs + [x])
    requires at < |l.img.code.instrs| && l.img.code.instrs[at] == CheckStructNull
    requires x.WStruct? || x.WNull?
    ensures Computes(l, false, at + 1, env', w', stk', xs + [WInt(Bool(x.WNull?))])
  {
    TopOf(stk', xs, x);
    ThenReplace(l, at, CheckStructNull, env', w', stk', xs, x, WInt(Bool(x.WNull?)));
  }

  lemma ThenArith1(
    l: Place, at: nat, op: UnOp, env': Env, w': World, stk': seq<Word>, xs: seq<Word>, i: int)
    requires Computes(l, false, at, env', w', stk', xs + [WInt(i)])
    requires at < |l.img.code.instrs| && l.img.code.instrs[at] == Arith1(op)
    ensures Computes(l, false, at + 1, env', w', stk', xs + [WInt(ApplyUn(op, i))])
  {
    TopOf(stk', xs, WInt(i));
    ThenReplace(l, at, Arith1(op), env', w', stk', xs, WInt(i), WInt(ApplyUn(op, i)));
  }

  lemma ThenArith2(
    l: Place, at: nat, op: BinOp, env': Env, w': World, stk': seq<Word>, xs: seq<Word>, i: int, j: int)
    requires Computes(l, false, at, env', w', stk', xs + [WInt(i)] + [WInt(j)])
    requires at < |l.img.code.instrs| && l.img.code.instrs[at] == Arith2(op)
    requires ApplyBin(op, i, j).Some?
    ensures Computes(l, false, at + 1, env', w', stk', xs + [WInt(ApplyBin(op, i, j).value)])
  {
    var st := stk' + (xs + [WInt(i)] + [WInt(j)]);
    var r := WInt(ApplyBin(op, i, j).value);
    assert st[|st| - 2] == WInt(i) && st[|st| - 1] == WInt(j);
    assert Drop(st, 2) + [r] == stk' + (xs + [r]);
    Then(l, at, Arith2(op), env', w', w', stk', xs + [WInt(i)] + [WInt(j)], at + 1, xs + [r]);
  }

  /** Packs the topmost words into a structure. */
  lemma ThenMakeStruct(
    l: Place, at: nat, env': Env, w': World, stk': seq<Word>, xs: seq<Word>)
    requires xs != [] && Computes(l, false, at, env', w', stk', xs)
    requires at < |l.img.code.instrs| && l.img.code.instrs[at] == Instr.MakeStruct(|xs|)
    ensures Computes(l, false, at + 1, env', w', stk', [WStruct(xs)])
  {
    assert Drop(stk' + xs, |xs|) == stk' && Last(stk' + xs, |xs|) == xs;
    Then(l, at, Instr.MakeStruct(|xs|), env', w', w', stk', xs, at + 1, [WStruct(xs)]);
  }

  /** In a nullable union the members are told apart by having fields. */
  lemma NullableMembers(p: Program, u: TypeId, a: TypeId, b: TypeId)
    requires UnionIsNullableStruct(p, u) && a in p.types[u].members && b in p.types[u].members
    ensures StructIsTagType(p, a) == StructIsTagType(p, b) ==> a == b
    ensures p.IsStruct(a) && (!StructIsTagType(p, a) ==> |p.types[a].fields| >= 2)
  {
    var types := p.types[u].members;
    var t :| t in types && StructIsTagType(p, t);
    var s :| s in types && p.IsStruct(s) && |p.types[s].fields| >= 2;
    assert types[0] in types && types[1] in types;
  }

  /** The test for member t of the union x. */
  lemma TestMember(
    l: Place, at: nat, env': Env, w': World, stk': seq<Word>, xs: seq<Word>, x: Word, v: Value, u: TypeId,
    t: TypeId)
    requires Computes(l, false, at, env', w', stk', xs + [x])
    requires Has(l.img.code, at, UnionTest(l.img.p, u, t))
    requires l.img.p.IsUnion(u) && HasType(l.img.p, v, u) && t in l.img.p.types[u].members
    requires Rep(l.img.p, l.img.code.labels, x, v)
    ensures Computes(l, false, at + |UnionTest(l.img.p, u, t)|, env', w', stk', xs + [WInt(Bool(v.member == t))])
  {
    hide Computes;
    var test := UnionTest(l.img.p, u, t);
    assert test[0] == l.img.code.instrs[at + 0];
    if UnionIsNullableStruct(l.img.p, u) {
      NullableMembers(l.img.p, u, v.member, t);
      ThenCheckNull(l, at, env', w', stk', xs, x);
      if !StructIsTagType(l.img.p, t) {
        assert test[1] == l.img.code.instrs[at + 1];
        ThenArith1(l, at + 1, CheckIntZero, env', w', stk', xs, Bool(x.WNull?));
      }
    } else {
      assert test[1] == l.img.code.instrs[at + 1] && test[2] == l.img.code.instrs[at + 2];
      var m, d := UnionDiscriminant(l.img.p, u, v.member), UnionDiscriminant(l.img.p, u, t);
      ThenField(l, at, 0, env', w', stk', xs, x);
      ThenLoadInt(l, at + 1, d, env', w', stk', xs + [WInt(m)]);
      ThenArith2(l, at + 2, CheckEqInt, env', w', stk', xs, m, d);
    }
  }
}
