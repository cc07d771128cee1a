/** Call inlining: a call of a small function that is not recursive becomes a group that assigns the
    arguments to new constants and then is the body of the function over new constants. */
module Inlining {
  import opened Lang
  import opened Trees
  import opened CallGraph

  const MAX_INLINE_SRC_FUNC_SIZE := 50

  type Remap = map<ConstId, ConstId>

  /** The table of constants with n more locals. */
  function Registered(t: ConstTable, n: nat): ConstTable {
    t.(locals := t.locals + NewIds(t.highest, n), highest := t.highest + n)
  }

  function NewIds(first: nat, n: nat): (r: seq<ConstId>)
    ensures |r| == n && forall i :: 0 <= i < n ==> r[i] == first + i
  {
    seq(n, i requires 0 <= i => first + i)
  }

  /** New names for the constants of an inlined function. */
  function Renaming(ids: seq<ConstId>, first: nat): Remap {
    map id | id in ids :: first + IndexOf(ids, id)
  }

  function NewName(t: Remap, id: ConstId): ConstId {
    if id in t then t[id] else id
  }

  /** e over the new constants. */
  function Remapped(t: Remap, e: Expr): Expr
    decreases Size(e), 0
  {
    var ks := RemappedAll(t, Kids(e));
    match e
    case ConstRef(id) => ConstRef(NewName(t, id))
    case Assign(id, _) => Assign(NewName(t, id), ks[0])
    case UnionGet(u, _, target, id) => UnionGet(u, ks[0], target, NewName(t, id))
    case _ => WithKids(e, ks)
  }

  function RemappedAll(t: Remap, es: seq<Expr>): (r: seq<Expr>)
    ensures |r| == |es|
    decreases SizeAll(es), 1
  {
    if es == [] then [] else [Remapped(t, es[0])] + RemappedAll(t, es[1..])
  }

  lemma {:induction false} RemappedSame(p: Program, t: Remap, e: Expr)
    ensures DirectCalls(p, Remapped(t, e)) == DirectCalls(p, e) && Size(Remapped(t, e)) == Size(e)
    decreases Size(e), 0
  {
    RemappedAllSame(p, t, Kids(e));
    SizeByKids(e);
    SizeByKids(Remapped(t, e));
    hide Remapped, RemappedAll, Size, Kids;
    KidsOfRemapped(t, e);
  }

  lemma KidsOfRemapped(t: Remap, e: Expr)
    ensures Kids(Remapped(t, e)) == RemappedAll(t, Kids(e))
    ensures Remapped(t, e).Call? == e.Call? && (e.Call? ==> Remapped(t, e).func == e.func)
  {
    hide RemappedAll;
  }

  lemma SizeByKids(e: Expr)
    ensures Size(e) == 1 + SizeAll(Kids(e))
  {
    match e
    case Switch(cs, bs) => SizeAllCat(cs, bs);
    case CallDyn(tgt, args, _) => SizeAllCat([tgt], args); SizeOne(tgt);
    case Assign(_, init) => SizeOne(init);
    case Field(_, lhs, _) => SizeOne(lhs);
    case UnionCheck(_, lhs, _) => SizeOne(lhs);
    case UnionGet(_, lhs, _, _) => SizeOne(lhs);
    case _ =>
  }

  lemma SizeOne(e: Expr)
    ensures SizeAll([e]) == Size(e)
  {
    assert [e][1..] == [];
  }

  lemma {:induction false} RemappedAllSame(p: Program, t: Remap, es: seq<Expr>)
    ensures AllDirectCalls(p, RemappedAll(t, es)) == AllDirectCalls(p, es) && SizeAll(RemappedAll(t, es)) == SizeAll(es)
    decreases SizeAll(es), 1
  {
    if es != [] {
      RemappedSame(p, t, es[0]);
      RemappedAllSame(p, t, es[1..]);
      assert RemappedAll(t, es)[1..] == RemappedAll(t, es[1..]);
    }
  }

  /** The pass over function `self` may inline calls of f. */
  ghost predicate Inlinable(p: Program, noInline: set<FuncId>, self: FuncId, e: Expr) {
    && e.Call? && p.IsUser(e.func) && e.func != self && e.func !in noInline
    && Size(p.funcs[e.func].kind.body) <= MAX_INLINE_SRC_FUNC_SIZE
    && !IsRecursive(p, e.func)
    && |e.args| == |p.funcs[e.func].kind.consts.Inputs()|
  }

  function Assigns(ids: seq<ConstId>, es: seq<Expr>): (r: seq<Expr>)
    requires |ids| == |es|
    ensures |r| == |es| && forall i :: 0 <= i < |es| ==> r[i] == Assign(ids[i], es[i])
  {
    seq(|es|, i requires 0 <= i < |es| => Assign(ids[i], es[i]))
  }

  function NewNames(t: Remap, ids: seq<ConstId>): (r: seq<ConstId>)
    ensures |r| == |ids| && forall i :: 0 <= i < |ids| ==> r[i] == NewName(t, ids[i])
  {
    seq(|ids|, i requires 0 <= i < |ids| => NewName(t, ids[i]))
  }

  ghost function CalledAll(p: Program, es: seq<Expr>): set<FuncId> {
    AllCallsAreUser(p, es);
    Close(p, AllDirectCalls(p, es))
  }

  lemma CalledKids(p: Program, e: Expr)
    ensures CalledAll(p, Kids(e)) <= Called(p, e)
  {
    CallsAreUser(p, e);
    AllCallsAreUser(p, Kids(e));
    CloseMore(p, AllDirectCalls(p, Kids(e)), DirectCalls(p, e));
  }

  lemma CalledParts(p: Program, es: seq<Expr>)
    requires es != []
    ensures Called(p, es[0]) <= CalledAll(p, es) && CalledAll(p, es[1..]) <= CalledAll(p, es)
  {
    AllCallsAreUser(p, es);
    CallsAreUser(p, es[0]);
    AllCallsAreUser(p, es[1..]);
    CloseMore(p, DirectCalls(p, es[0]), AllDirectCalls(p, es));
    CloseMore(p, AllDirectCalls(p, es[1..]), AllDirectCalls(p, es));
  }

  lemma CalledRemapped(p: Program, t: Remap, e: Expr)
    ensures Called(p, Remapped(t, e)) == Called(p, e)
  {
    RemappedSame(p, t, e);
  }

  /** The rewritten expression and the table of constants after the pass over e. It ends because an
      inlined body can call fewer functions than the call it replaces. */
  ghost function Inlined(p: Program, noInline: set<FuncId>, self: FuncId, s: ConstTable, e: Expr): (Expr, ConstTable)
    decreases Called(p, e), Size(e), 0
  {
    CalledKids(p, e);
    if Inlinable(p, noInline, self, e) then
      var tgt, body := p.funcs[e.func].kind.consts, p.funcs[e.func].kind.body;
      BodyCallsFewer(p, e);
      var t := Renaming(tgt.All(), s.highest);
      CalledRemapped(p, t, body);
      var (args, s1) := InlinedAll(p, noInline, self, Registered(s, |tgt.All()|), e.args);
      var (last, s2) := Inlined(p, noInline, self, s1, Remapped(t, body));
      (Regroup(Assigns(NewNames(t, tgt.Inputs()), args) + [last]), s2)
    else
      var (ks, s1) := InlinedAll(p, noInline, self, s, Kids(e));
      (WithKids(e, ks), s1)
  }

  ghost function InlinedAll(p: Program, noInline: set<FuncId>, self: FuncId, s: ConstTable, es: seq<Expr>)
    : (r: (seq<Expr>, ConstTable))
    ensures |r.0| == |es|
    decreases CalledAll(p, es), SizeAll(es), 1
  {
    if es == [] then ([], s)
    else
      CalledParts(p, es);
      var (k, s1) := Inlined(p, noInline, self, s, es[0]);
      var (ks, s2) := InlinedAll(p, noInline, self, s1, es[1..]);
      ([k] + ks, s2)
  }

  // ----- The pass as a rewriter -----

  class CallInlineRewriter {
    const prog: Program
    const noInline: set<FuncId>
    const funcId: FuncId
    var consts: ConstTable
    var modified: bool

    constructor (prog: Program, noInline: set<FuncId>, funcId: FuncId, consts: ConstTable)
      ensures this.prog == prog && this.noInline == noInline && this.funcId == funcId
      ensures this.consts == consts && !modified
    {
      this.prog, this.noInline, this.funcId, this.consts, modified := prog, noInline, funcId, consts, false;
    }

    method IsInlinable(e: Expr) returns (r: bool)
      ensures r == Inlinable(prog, noInline, funcId, e)
    {
      if !e.Call? || !prog.IsUser(e.func) { return false; }
      if e.func == funcId || e.func in noInline { return false; }
      if Size(prog.funcs[e.func].kind.body) > MAX_INLINE_SRC_FUNC_SIZE { return false; }
      var recursive := TestRecursive(prog, e.func);
      r := !recursive && |e.args| == |prog.funcs[e.func].kind.consts.Inputs()|;
    }

    method Rewrite(e: Expr) returns (r: Expr)
      modifies this
      ensures (r, consts) == old(Inlined(prog, noInline, funcId, consts, e))
      decreases Called(prog, e), Size(e), 0
    {
      CalledKids(prog, e);
      var inlinable := IsInlinable(e);
      if inlinable {
        modified := true;
        r := InlineCall(e);
      } else {
        var ks := RewriteAll(Kids(e));
        r := WithKids(e, ks);
      }
    }

    method RewriteAll(es: seq<Expr>) returns (r: seq<Expr>)
      modifies this
      ensures (r, consts) == old(InlinedAll(prog, noInline, funcId, consts, es))
      decreases CalledAll(prog, es), SizeAll(es), 1
    {
      if es == [] { return []; }
      CalledParts(prog, es);
      var k := Rewrite(es[0]);
      var ks := RewriteAll(es[1..]);
      r := [k] + ks;
    }

    method InlineCall(e: Expr) returns (r: Expr)
      requires Inlinable(prog, noInline, funcId, e)
      modifies this
      ensures (r, consts) == old(Inlined(prog, noInline, funcId, consts, e))
      decreases Called(prog, e), SizeAll(Kids(e)), 2
    {
      hide Renaming, Remapped, CalledAll;
      var tgtConsts, body := prog.funcs[e.func].kind.consts, prog.funcs[e.func].kind.body;
      var table := RegisterTargetConsts(tgtConsts.All());
      assert Kids(e) == e.args;
      CalledKids(prog, e);
      var args := RewriteAll(e.args);
      var exprs: seq<Expr> := [];
      ghost var news := NewNames(table, tgtConsts.Inputs());
      for i := 0 to |args|
        invariant |exprs| == i && forall j :: 0 <= j < i ==> exprs[j] == Assigns(news, args)[j]
      {
        exprs := exprs + [Assign(NewName(table, tgtConsts.Inputs()[i]), args[i])];
      }
      assert exprs == Assigns(news, args);
      BodyCallsFewer(prog, e);
      CalledRemapped(prog, table, body);
      var last := Rewrite(Remapped(table, body));
      exprs := exprs + [last];
      r := if |exprs| > 1 then Group(exprs) else exprs[0];
    }

    method RegisterTargetConsts(ids: seq<ConstId>) returns (table: Remap)
      modifies this`consts
      ensures table == Renaming(ids, old(consts).highest)
      ensures consts == Registered(old(consts), |ids|)
    {
      hide IndexOf, NewIds;
      table := map[];
      ghost var start := consts;
      for i := 0 to |ids|
        invariant consts == Registered(start, i)
        invariant forall id :: id in table <==> id in ids[..i]
        invariant forall id | id in table :: id in ids && table[id] == start.highest + IndexOf(ids, id)
      {
        var remapped := consts.highest;
        assert NewIds(start.highest, i + 1) == NewIds(start.highest, i) + [start.highest + i];
        assert start.locals + NewIds(start.highest, i) + [start.highest + i]
            == start.locals + NewIds(start.highest, i + 1);
        consts := consts.(locals := consts.locals + [remapped], highest := consts.highest + 1);
        if ids[i] !in table {
          FirstAt(ids, i);
          table := table[ids[i] := remapped];
        }
        assert ids[..i + 1] == ids[..i] + [ids[i]];
      }
      assert ids[..|ids|] == ids;
    }
  }

  lemma FirstAt(ids: seq<ConstId>, i: nat)
    requires i < |ids| && ids[i] !in ids[..i]
    ensures IndexOf(ids, ids[i]) == i
  {
    assert forall j :: 0 <= j < i ==> ids[j] in ids[..i];
  }
}
