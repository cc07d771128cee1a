/** Inlining preserves the meaning of programs. */
module InliningMeaning {
  import opened Lang
  import opened Trees
  import opened Purity
  import opened Effects
  import opened CallGraph
  import opened Inlining

  // ----- Evaluating a body over other constants -----

  function Ids(e: Expr): set<ConstId> {
    Uses(e) + Assigned(e)
  }

  function IdsAll(es: seq<Expr>): set<ConstId> {
    UsesAll(es) + AssignedAll(es)
  }

  /** env2 holds env under the new names. */
  predicate Renames(t: Remap, env: Env, env2: Env) {
    forall id | id in env :: id in t && t[id] in env2 && env2[t[id]] == env[id]
  }

  predicate Injective(t: Remap) {
    forall a, b | a in t && b in t && t[a] == t[b] :: a == b
  }

  /** sc2 has room for the new constants and may do whatever sc may do. */
  ghost predicate HasRoom(t: Remap, sc: Scope, sc2: Scope) {
    Injective(t) && (sc.isAction ==> sc2.isAction) && forall id | id in t :: sc2.consts.Has(t[id])
  }

  predicate Renamable(t: Remap, e: Expr) {
    Ids(e) <= t.Keys && !CallsSelf(e)
  }

  predicate RenamableAll(t: Remap, es: seq<Expr>) {
    IdsAll(es) <= t.Keys && !AnyCallsSelf(es)
  }

  ghost predicate Renamed<T>(t: Remap, r: Result<T>, r2: Result<T>) {
    r.Ok? && r2.Ok? && r2.val == r.val && r2.world == r.world && Renames(t, r.env, r2.env)
  }

  lemma RenamableCat(t: Remap, a: seq<Expr>, b: seq<Expr>)
    requires RenamableAll(t, a + b)
    ensures RenamableAll(t, a) && RenamableAll(t, b)
  {
    if a == [] {
      assert a + b == b;
    } else {
      assert (a + b)[1..] == a[1..] + b;
      RenamableCat(t, a[1..], b);
    }
  }

  lemma RenamableAt(t: Remap, es: seq<Expr>, i: nat)
    requires RenamableAll(t, es) && i < |es|
    ensures Renamable(t, es[i]) && RemappedAll(t, es)[i] == Remapped(t, es[i])
    decreases es
  {
    if i > 0 { RenamableAt(t, es[1..], i - 1); }
  }

  lemma RemappedCat(t: Remap, a: seq<Expr>, b: seq<Expr>)
    ensures RemappedAll(t, a + b) == RemappedAll(t, a) + RemappedAll(t, b)
    decreases a
  {
    if a == [] {
      assert a + b == b;
    } else {
      assert (a + b)[1..] == a[1..] + b;
      RemappedCat(t, a[1..], b);
    }
  }

  lemma KidsRenamable(t: Remap, e: Expr)
    requires Renamable(t, e)
    ensures RenamableAll(t, Kids(e))
  {}

  lemma {:induction false} RemapMeans(
    p: Program, t: Remap, sc: Scope, sc2: Scope, fuel: nat, e: Expr, env: Env, env2: Env, w: World)
    requires HasRoom(t, sc, sc2) && Renamable(t, e) && Renames(t, env, env2)
    requires Eval(p, sc, fuel, e, env, w).Ok?
    ensures Renamed(t, Eval(p, sc, fuel, e, env, w), Eval(p, sc2, fuel, Remapped(t, e), env2, w))
    decreases fuel, 0, e, 1
  {
    hide Eval, Remapped, Renamable, HasRoom, Renames, Renamed;
    match e
    case Assign(_, _) => RemapAssignMeans(p, t, sc, sc2, fuel, e, env, env2, w);
    case Group(_) => RemapListMeans(p, t, sc, sc2, fuel, e, env, env2, w);
    case Switch(_, _) => RemapSwitchMeans(p, t, sc, sc2, fuel, e, env, env2, w);
    case Call(_, _) => RemapListMeans(p, t, sc, sc2, fuel, e, env, env2, w);
    case CallDyn(_, _, _) => RemapDynMeans(p, t, sc, sc2, fuel, e, env, env2, w);
    case Closure(_, _) => RemapListMeans(p, t, sc, sc2, fuel, e, env, env2, w);
    case Field(_, _, _) => RemapLhsMeans(p, t, sc, sc2, fuel, e, env, env2, w);
    case UnionCheck(_, _, _) => RemapLhsMeans(p, t, sc, sc2, fuel, e, env, env2, w);
    case UnionGet(_, _, _, _) => RemapGetMeans(p, t, sc, sc2, fuel, e, env, env2, w);
    case _ => RemapLeafMeans(p, t, sc, sc2, fuel, e, env, env2, w);
  }

  lemma {:induction false} RemapLeafMeans(
    p: Program, t: Remap, sc: Scope, sc2: Scope, fuel: nat, e: Expr, env: Env, env2: Env, w: World)
    requires HasRoom(t, sc, sc2) && Renamable(t, e) && Renames(t, env, env2)
    requires (e.LitBool? || e.LitInt? || e.LitFunc? || e.ConstRef? || e.CallSelf? || e.FailNode?) && Eval(p, sc, fuel, e, env, w).Ok?
    ensures Renamed(t, Eval(p, sc, fuel, e, env, w), Eval(p, sc2, fuel, Remapped(t, e), env2, w))
    decreases fuel, 0, e, 0
  {}

  lemma {:induction false} RemapAssignMeans(
    p: Program, t: Remap, sc: Scope, sc2: Scope, fuel: nat, e: Expr, env: Env, env2: Env, w: World)
    requires HasRoom(t, sc, sc2) && Renamable(t, e) && Renames(t, env, env2)
    requires e.Assign? && Eval(p, sc, fuel, e, env, w).Ok?
    ensures Renamed(t, Eval(p, sc, fuel, e, env, w), Eval(p, sc2, fuel, Remapped(t, e), env2, w))
    decreases fuel, 0, e, 0
  {
    KidsRenamable(t, e);
    RenamableAt(t, [e.init], 0);
    RemapMeans(p, t, sc, sc2, fuel, e.init, env, env2, w);
  }

  lemma {:induction false} RemapListMeans(
    p: Program, t: Remap, sc: Scope, sc2: Scope, fuel: nat, e: Expr, env: Env, env2: Env, w: World)
    requires HasRoom(t, sc, sc2) && Renamable(t, e) && Renames(t, env, env2)
    requires (e.Group? || e.Call? || e.Closure?) && Eval(p, sc, fuel, e, env, w).Ok?
    ensures Renamed(t, Eval(p, sc, fuel, e, env, w), Eval(p, sc2, fuel, Remapped(t, e), env2, w))
    decreases fuel, 0, e, 0
  {
    KidsRenamable(t, e);
    hide Renamable, RenamableAll;
    RemapAllMeans(p, t, sc, sc2, fuel, Kids(e), env, env2, w);
  }

  lemma {:induction false} RemapLhsMeans(
    p: Program, t: Remap, sc: Scope, sc2: Scope, fuel: nat, e: Expr, env: Env, env2: Env, w: World)
    requires HasRoom(t, sc, sc2) && Renamable(t, e) && Renames(t, env, env2)
    requires (e.Field? || e.UnionCheck?) && Eval(p, sc, fuel, e, env, w).Ok?
    ensures Renamed(t, Eval(p, sc, fuel, e, env, w), Eval(p, sc2, fuel, Remapped(t, e), env2, w))
    decreases fuel, 0, e, 0
  {
    KidsRenamable(t, e);
    RenamableAt(t, [e.lhs], 0);
    hide Renamable, RenamableAll, Renames;
    RemapMeans(p, t, sc, sc2, fuel, e.lhs, env, env2, w);
  }

  /** Storing the member of a union, or forgetting its constant, under the new name. */
  lemma RenamesSet(t: Remap, sc: Scope, sc2: Scope, e: Expr, env: Env, env2: Env, v: Value)
    requires HasRoom(t, sc, sc2) && Renamable(t, e) && Renames(t, env, env2) && e.UnionGet?
    ensures e.id in t && sc2.consts.Has(t[e.id]) && NewName(t, e.id) == t[e.id]
    ensures v.VUnion? ==> Renames(t, env[e.id := v.val], env2[t[e.id] := v.val])
    ensures Renames(t, env - {e.id}, env2 - {t[e.id]})
  {
    assert e.id in OwnAssigned(e) && e.id in Assigned(e);
  }

  lemma {:induction false} RemapGetMeans(
    p: Program, t: Remap, sc: Scope, sc2: Scope, fuel: nat, e: Expr, env: Env, env2: Env, w: World)
    requires HasRoom(t, sc, sc2) && Renamable(t, e) && Renames(t, env, env2)
    requires e.UnionGet? && Eval(p, sc, fuel, e, env, w).Ok?
    ensures Renamed(t, Eval(p, sc, fuel, e, env, w), Eval(p, sc2, fuel, Remapped(t, e), env2, w))
    decreases fuel, 0, e, 0
  {
    KidsRenamable(t, e);
    RenamableAt(t, [e.lhs], 0);
    hide Renames, HasRoom, Renamable, RenamableAll, Ids, IdsAll;
    RemapMeans(p, t, sc, sc2, fuel, e.lhs, env, env2, w);
    var r, r2 := Eval(p, sc, fuel, e.lhs, env, w), Eval(p, sc2, fuel, Remapped(t, e.lhs), env2, w);
    RenamesSet(t, sc, sc2, e, r.env, r2.env, r.val);
  }

  lemma {:induction false} RemapSwitchMeans(
    p: Program, t: Remap, sc: Scope, sc2: Scope, fuel: nat, e: Expr, env: Env, env2: Env, w: World)
    requires HasRoom(t, sc, sc2) && Renamable(t, e) && Renames(t, env, env2)
    requires e.Switch? && Eval(p, sc, fuel, e, env, w).Ok?
    ensures Renamed(t, Eval(p, sc, fuel, e, env, w), Eval(p, sc2, fuel, Remapped(t, e), env2, w))
    decreases fuel, 0, e, 0
  {
    var cs, bs := e.conds, e.branches;
    KidsRenamable(t, e);
    hide Renamable, RenamableAll, Renames;
    RenamableCat(t, cs, bs);
    RemappedCat(t, cs, bs);
    RemapCondsMeans(p, t, sc, sc2, fuel, cs, env, env2, w);
    var r, r2 := EvalConds(p, sc, fuel, cs, env, w), EvalConds(p, sc2, fuel, RemappedAll(t, cs), env2, w);
    RenamableAt(t, bs, r.val);
    RemapMeans(p, t, sc, sc2, fuel, bs[r.val], r.env, r2.env, r.world);
  }

  lemma {:induction false} RemapDynMeans(
    p: Program, t: Remap, sc: Scope, sc2: Scope, fuel: nat, e: Expr, env: Env, env2: Env, w: World)
    requires HasRoom(t, sc, sc2) && Renamable(t, e) && Renames(t, env, env2)
    requires e.CallDyn? && Eval(p, sc, fuel, e, env, w).Ok?
    ensures Renamed(t, Eval(p, sc, fuel, e, env, w), Eval(p, sc2, fuel, Remapped(t, e), env2, w))
    decreases fuel, 0, e, 0
  {
    KidsRenamable(t, e);
    hide Renamable, RenamableAll, Renames;
    RenamableCat(t, [e.tgt], e.args);
    RemappedCat(t, [e.tgt], e.args);
    RenamableAt(t, [e.tgt], 0);
    RemapAllMeans(p, t, sc, sc2, fuel, e.args, env, env2, w);
    var r, r2 := EvalAll(p, sc, fuel, e.args, env, w), EvalAll(p, sc2, fuel, RemappedAll(t, e.args), env2, w);
    RemapMeans(p, t, sc, sc2, fuel, e.tgt, r.env, r2.env, r.world);
  }

  lemma {:induction false} RemapAllMeans(
    p: Program, t: Remap, sc: Scope, sc2: Scope, fuel: nat, es: seq<Expr>, env: Env, env2: Env, w: World)
    requires HasRoom(t, sc, sc2) && RenamableAll(t, es) && Renames(t, env, env2)
    requires EvalAll(p, sc, fuel, es, env, w).Ok?
    ensures Renamed(t, EvalAll(p, sc, fuel, es, env, w), EvalAll(p, sc2, fuel, RemappedAll(t, es), env2, w))
    decreases fuel, 0, es
  {
    if es != [] {
      RemapMeans(p, t, sc, sc2, fuel, es[0], env, env2, w);
      var r, r2 := Eval(p, sc, fuel, es[0], env, w), Eval(p, sc2, fuel, Remapped(t, es[0]), env2, w);
      RemapAllMeans(p, t, sc, sc2, fuel, es[1..], r.env, r2.env, r.world);
      assert RemappedAll(t, es)[1..] == RemappedAll(t, es[1..]);
    }
  }

  lemma {:induction false} RemapCondsMeans(
    p: Program, t: Remap, sc: Scope, sc2: Scope, fuel: nat, cs: seq<Expr>, env: Env, env2: Env, w: World)
    requires HasRoom(t, sc, sc2) && RenamableAll(t, cs) && Renames(t, env, env2)
    requires EvalConds(p, sc, fuel, cs, env, w).Ok?
    ensures Renamed(t, EvalConds(p, sc, fuel, cs, env, w), EvalConds(p, sc2, fuel, RemappedAll(t, cs), env2, w))
    decreases fuel, 0, cs
  {
    if cs != [] {
      RemapMeans(p, t, sc, sc2, fuel, cs[0], env, env2, w);
      var r, r2 := Eval(p, sc, fuel, cs[0], env, w), Eval(p, sc2, fuel, Remapped(t, cs[0]), env2, w);
      assert RemappedAll(t, cs)[1..] == RemappedAll(t, cs[1..]);
      if r.val.i == 0 { RemapCondsMeans(p, t, sc, sc2, fuel, cs[1..], r.env, r2.env, r.world); }
    }
  }

  /** The new names are the only ones in a renamed expression. */
  lemma {:induction false} RemappedIds(t: Remap, e: Expr)
    requires Ids(e) <= t.Keys
    ensures Ids(Remapped(t, e)) <= t.Values && Assigned(Remapped(t, e)) <= t.Values
    ensures CallsSelf(Remapped(t, e)) == CallsSelf(e)
    decreases Size(e), 0
  {
    var ks, r := RemappedAll(t, Kids(e)), Remapped(t, e);
    RemappedAllIds(t, Kids(e));
    KidsOfRemapped(t, e);
    assert r.CallSelf? == e.CallSelf? && r.ConstRef? == e.ConstRef?;
    assert e.ConstRef? ==> r.id == t[e.id];
    assert OwnAssigned(r) <= t.Values;
  }

  lemma {:induction false} RemappedAllIds(t: Remap, es: seq<Expr>)
    requires IdsAll(es) <= t.Keys
    ensures IdsAll(RemappedAll(t, es)) <= t.Values && AnyCallsSelf(RemappedAll(t, es)) == AnyCallsSelf(es)
    decreases SizeAll(es), 1
  {
    if es != [] {
      RemappedIds(t, es[0]);
      RemappedAllIds(t, es[1..]);
      assert RemappedAll(t, es)[1..] == RemappedAll(t, es[1..]);
    }
  }

  // ----- The constants of the rewritten function -----

  predicate Below(ids: set<ConstId>, h: nat) {
    forall id | id in ids :: id < h
  }

  predicate EnvBelow(env: Env, h: nat) {
    forall id | id in env :: id < h
  }

  predicate Distinct(ids: seq<ConstId>) {
    forall i, j :: 0 <= i < j < |ids| ==> ids[i] != ids[j]
  }

  /** s2 is s with all constants from s.highest on registered as locals. */
  ghost predicate Extended(s: ConstTable, s2: ConstTable) {
    && s2.inputs == s.inputs && s2.bound == s.bound && s.highest <= s2.highest
    && (forall id | s.Has(id) :: s2.Has(id)) && (forall id | s.highest <= id < s2.highest :: s2.Has(id))
  }

  function Range(lo: nat, hi: nat): (r: set<ConstId>)
    ensures forall id :: id in r <==> lo <= id < hi
    decreases hi - lo
  {
    if lo >= hi then {} else {lo} + Range(lo + 1, hi)
  }

  /** A function uses and assigns only its own constants, each declared once. */
  ghost predicate Ready(f: FuncDecl) {
    f.kind.User? ==>
      var consts := f.kind.consts;
      && Ids(f.kind.body) <= ToSet(consts.All()) && Distinct(consts.All())
      && forall id | id in consts.All() :: id < consts.highest
  }

  ghost predicate AllReady(p: Program) {
    forall f | 0 <= f < |p.funcs| :: Ready(p.funcs[f])
  }

  lemma RegisteredExtends(s: ConstTable, n: nat)
    ensures Extended(s, Registered(s, n))
  {
    var r, news := Registered(s, n), NewIds(s.highest, n);
    forall id | s.highest <= id < r.highest ensures r.Has(id) {
      assert news[id - s.highest] == id;
    }
  }

  /** A renaming gives every constant of the function its own new name. */
  lemma RenamingIsNew(ids: seq<ConstId>, first: nat)
    requires Distinct(ids)
    ensures Injective(Renaming(ids, first)) && Renaming(ids, first).Keys == ToSet(ids)
    ensures Renaming(ids, first).Values <= Range(first, first + |ids|)
  {}

  lemma {:induction false} InlinedShape(p: Program, noInline: set<FuncId>, self: FuncId, s: ConstTable, e: Expr)
    requires AllReady(p)
    ensures var (k, s2) := Inlined(p, noInline, self, s, e);
            Extended(s, s2) && Assigned(k) <= Assigned(e) + Range(s.highest, s2.highest)
    decreases Called(p, e), Size(e), 0
  {
    CalledKids(p, e);
    if Inlinable(p, noInline, self, e) {
      InlinedCallShape(p, noInline, self, s, e);
    } else {
      var (ks, s2) := InlinedAll(p, noInline, self, s, Kids(e));
      InlinedAllShape(p, noInline, self, s, Kids(e));
      KidsOfWithKids(e, ks);
    }
  }

  lemma {:induction false} InlinedAllShape(
    p: Program, noInline: set<FuncId>, self: FuncId, s: ConstTable, es: seq<Expr>)
    requires AllReady(p)
    ensures var (ks, s2) := InlinedAll(p, noInline, self, s, es);
            Extended(s, s2) && AssignedAll(ks) <= AssignedAll(es) + Range(s.highest, s2.highest)
    decreases CalledAll(p, es), SizeAll(es), 1
  {
    if es != [] {
      CalledParts(p, es);
      var (k, s1) := Inlined(p, noInline, self, s, es[0]);
      var (ks, s2) := InlinedAll(p, noInline, self, s1, es[1..]);
      InlinedShape(p, noInline, self, s, es[0]);
      InlinedAllShape(p, noInline, self, s1, es[1..]);
      assert ([k] + ks)[1..] == ks;
    }
  }

  lemma {:induction false} InlinedCallShape(
    p: Program, noInline: set<FuncId>, self: FuncId, s: ConstTable, e: Expr)
    requires AllReady(p) && Inlinable(p, noInline, self, e)
    ensures var (k, s2) := Inlined(p, noInline, self, s, e);
            Extended(s, s2) && Assigned(k) <= Assigned(e) + Range(s.highest, s2.highest)
    decreases Called(p, e), SizeAll(Kids(e)), 2
  {
    var c := CallUnfold(p, noInline, self, s, e);
    CalledKids(p, e);
    BodyCallsFewer(p, e);
    CalledRemapped(p, c.t, p.funcs[e.func].kind.body);
    hide Inlined, InlinedAll, Remapped, Inlinable, Called, CalledAll, Extended, Regroup, Ready, AllReady;
    InlinedAllShape(p, noInline, self, c.s0, e.args);
    InlinedShape(p, noInline, self, c.s1, c.body);
    ExtendedTrans(s, c.s0, c.s1);
    ExtendedTrans(s, c.s1, c.s2);
    GroupedAssigned(c.news, c.args, c.last);
    assert Assigned(e) == {} + AssignedAll(e.args);
    InRange(c, s);
  }

  lemma InRange(c: Unfolded, s: ConstTable)
    requires s.highest <= c.s0.highest <= c.s1.highest <= c.s2.highest
    requires c.t.Values <= Range(s.highest, c.s0.highest) && ToSet(c.news) <= c.t.Values
    ensures ToSet(c.news) <= Range(s.highest, c.s2.highest) && c.t.Values <= Range(s.highest, c.s2.highest)
    ensures Range(c.s0.highest, c.s1.highest) <= Range(s.highest, c.s2.highest)
    ensures Range(c.s1.highest, c.s2.highest) <= Range(s.highest, c.s2.highest)
  {}

  lemma ExtendedRefl(s: ConstTable)
    ensures Extended(s, s)
  {}

  lemma ExtendedTrans(a: ConstTable, b: ConstTable, c: ConstTable)
    requires Extended(a, b) && Extended(b, c)
    ensures Extended(a, c) && a.highest <= b.highest <= c.highest
  {}

  /** news are the new names of ids. */
  predicate Names(t: Remap, ids: seq<ConstId>, news: seq<ConstId>) {
    |news| == |ids| && forall i :: 0 <= i < |ids| ==> ids[i] in t && news[i] == t[ids[i]]
  }

  /** The pieces of an inlined call. */
  datatype Unfolded = Unfolded(
    t: Remap, news: seq<ConstId>, body: Expr, args: seq<Expr>, last: Expr, s0: ConstTable, s1: ConstTable, s2: ConstTable)

  lemma CallUnfold(p: Program, noInline: set<FuncId>, self: FuncId, s: ConstTable, e: Expr) returns (c: Unfolded)
    requires AllReady(p) && Inlinable(p, noInline, self, e)
    ensures var tgt := p.funcs[e.func].kind.consts;
            && c.t == Renaming(tgt.All(), s.highest) && c.news == NewNames(c.t, tgt.Inputs())
            && c.s0 == Registered(s, |tgt.All()|) && c.body == Remapped(c.t, p.funcs[e.func].kind.body)
            && (c.args, c.s1) == InlinedAll(p, noInline, self, c.s0, e.args)
            && (c.last, c.s2) == Inlined(p, noInline, self, c.s1, c.body)
            && Inlined(p, noInline, self, s, e) == (Regroup(Assigns(c.news, c.args) + [c.last]), c.s2)
            && |c.news| == |c.args| == |e.args| == |tgt.Inputs()|
    ensures Extended(s, c.s0) && Kids(e) == e.args && e.Call? && p.IsUser(e.func) && Ready(p.funcs[e.func])
    ensures Injective(c.t) && c.t.Values <= Range(s.highest, c.s0.highest) && ToSet(c.news) <= c.t.Values
    ensures Renamable(c.t, p.funcs[e.func].kind.body) && Ids(c.body) <= c.t.Values && Assigned(c.body) <= c.t.Values
    ensures Distinct(c.news) && Names(c.t, p.funcs[e.func].kind.consts.Inputs(), c.news)
  {
    assert Ready(p.funcs[e.func]);
    var tgt, body := p.funcs[e.func].kind.consts, p.funcs[e.func].kind.body;
    var t, s0 := Renaming(tgt.All(), s.highest), Registered(s, |tgt.All()|);
    RegisteredExtends(s, |tgt.All()|);
    RenamingIsNew(tgt.All(), s.highest);
    RemappedIds(t, body);
    var (args, s1) := InlinedAll(p, noInline, self, s0, e.args);
    var (last, s2) := Inlined(p, noInline, self, s1, Remapped(t, body));
    var news := NewNames(t, tgt.Inputs());
    c := Unfolded(t, news, Remapped(t, body), args, last, s0, s1, s2);
    hide Inlined, InlinedAll, Remapped, Ids;
    NewsDistinct(tgt, t);
  }

  lemma NewsDistinct(tgt: ConstTable, t: Remap)
    requires Distinct(tgt.All()) && Injective(t) && t.Keys == ToSet(tgt.All())
    ensures var news := NewNames(t, tgt.Inputs());
            Distinct(news) && ToSet(news) <= t.Values && Names(t, tgt.Inputs(), news)
  {
    var ids, news := tgt.Inputs(), NewNames(t, tgt.Inputs());
    forall i | 0 <= i < |ids| ensures ids[i] in t && ids[i] == tgt.All()[i] { assert ids[i] in tgt.All(); }
    forall n | n in news ensures n in t.Values {
      var i :| 0 <= i < |news| && news[i] == n;
    }
  }

  lemma GroupedAssigned(news: seq<ConstId>, args: seq<Expr>, last: Expr)
    requires |news| == |args|
    ensures Assigned(Regroup(Assigns(news, args) + [last])) == ToSet(news) + AssignedAll(args) + Assigned(last)
  {
    var es := Assigns(news, args) + [last];
    AssignsAssigned(news, args);
    AssignedAllCat(Assigns(news, args), [last]);
    AssignedOne(last);
    assert Kids(Group(es)) == es;
    if |es| == 1 { assert es == [last]; }
  }

  lemma {:induction false} AssignsAssigned(news: seq<ConstId>, args: seq<Expr>)
    requires |news| == |args|
    ensures AssignedAll(Assigns(news, args)) == ToSet(news) + AssignedAll(args)
    decreases |news|
  {
    if news != [] {
      var es, rest := Assigns(news, args), Assigns(news[1..], args[1..]);
      AssignsAssigned(news[1..], args[1..]);
      assert es[0] == Assign(news[0], args[0]) && es[1..] == rest;
      hide Assigns;
      AssignedOne(args[0]);
      assert Assigned(es[0]) == {news[0]} + Assigned(args[0]);
      hide Assigned;
      assert news == [news[0]] + news[1..];
    }
  }

  lemma {:induction false} InlinedCat(
    p: Program, noInline: set<FuncId>, self: FuncId, s: ConstTable, a: seq<Expr>, b: seq<Expr>)
    ensures var (ka, s1) := InlinedAll(p, noInline, self, s, a);
            var (kb, s2) := InlinedAll(p, noInline, self, s1, b);
            InlinedAll(p, noInline, self, s, a + b) == (ka + kb, s2)
    decreases |a|
  {
    if a == [] {
      assert a + b == b;
      var kb := InlinedAll(p, noInline, self, s, b).0;
      assert [] + kb == kb;
    } else {
      assert (a + b)[1..] == a[1..] + b;
      var (k, s0) := Inlined(p, noInline, self, s, a[0]);
      InlinedCat(p, noInline, self, s0, a[1..], b);
      var (ka, s1) := InlinedAll(p, noInline, self, s0, a[1..]);
      var (kb, s2) := InlinedAll(p, noInline, self, s1, b);
      assert [k] + (ka + kb) == [k] + ka + kb;
    }
  }

  lemma {:induction false} InlinedAt(
    p: Program, noInline: set<FuncId>, self: FuncId, s: ConstTable, es: seq<Expr>, i: nat) returns (si: ConstTable)
    requires AllReady(p) && i < |es|
    ensures var (k, s1) := Inlined(p, noInline, self, si, es[i]);
            var (ks, s2) := InlinedAll(p, noInline, self, s, es);
            ks[i] == k && Extended(s, si) && Extended(s1, s2)
    decreases i
  {
    hide Inlined, InlinedAll, Extended;
    var (k, s1) := Inlined(p, noInline, self, s, es[0]);
    AllFirst(p, noInline, self, s, es);
    ExtendedRefl(s);
    if i == 0 {
      si := s;
    } else {
      si := InlinedAt(p, noInline, self, s1, es[1..], i - 1);
      ExtendedTrans(s, s1, si);
    }
  }

  lemma AllFirst(p: Program, noInline: set<FuncId>, self: FuncId, s: ConstTable, es: seq<Expr>)
    requires AllReady(p) && es != []
    ensures var (k, s1) := Inlined(p, noInline, self, s, es[0]);
            var (ks, s2) := InlinedAll(p, noInline, self, s1, es[1..]);
            InlinedAll(p, noInline, self, s, es) == ([k] + ks, s2) && Extended(s, s1) && Extended(s1, s2)
  {
    InlinedShape(p, noInline, self, s, es[0]);
    InlinedAllShape(p, noInline, self, Inlined(p, noInline, self, s, es[0]).1, es[1..]);
  }

  // ----- The rewritten program -----

  ghost function InlinedFunc(p: Program, noInline: set<FuncId>, f: FuncId): FuncDecl
    requires f < |p.funcs|
  {
    if p.IsUser(f) then
      var (e, s) := Inlined(p, noInline, f, p.funcs[f].kind.consts, p.funcs[f].kind.body);
      FuncDecl(User(s, e), p.funcs[f].isAction)
    else p.funcs[f]
  }

  ghost function InlinedProgram(p: Program, noInline: set<FuncId>): Program {
    p.(funcs := seq(|p.funcs|, f requires 0 <= f < |p.funcs| => InlinedFunc(p, noInline, f)))
  }

  /** An expression of function `self` in scope sc is rewritten and evaluated in scope sc2 of the
      rewritten program; `noInline` is the set for this expression. */
  datatype Site = Site(p: Program, p2: Program, noInline: set<FuncId>, self: FuncId, sc: Scope, sc2: Scope)

  ghost predicate GoodSite(c: Site) {
    && AllReady(c.p)
    && c.sc2.func == c.sc.func && c.sc2.isAction == c.sc.isAction
    && c.sc2.consts.inputs == c.sc.consts.inputs && c.sc2.consts.bound == c.sc.consts.bound
    && (forall id | c.sc.consts.Has(id) :: c.sc2.consts.Has(id))
  }

  /** The scope has room for everything registered by the end of the pass. */
  ghost predicate Room(c: Site, s: ConstTable) {
    forall id | s.Has(id) :: c.sc2.consts.Has(id)
  }

  lemma RoomBefore(c: Site, s: ConstTable, s2: ConstTable)
    requires Extended(s, s2) && Room(c, s2)
    ensures Room(c, s)
  {}

  ghost function After(c: Site, s: ConstTable, e: Expr): (Expr, ConstTable) {
    Inlined(c.p, c.noInline, c.self, s, e)
  }

  ghost function AfterAll(c: Site, s: ConstTable, es: seq<Expr>): (r: (seq<Expr>, ConstTable))
    ensures |r.0| == |es|
  {
    InlinedAll(c.p, c.noInline, c.self, s, es)
  }

  /** What the original expression and its environment may mention. */
  ghost predicate Placed(c: Site, s: ConstTable, ids: set<ConstId>, env: Env, env2: Env) {
    GoodSite(c) && Below(ids, s.highest) && EnvBelow(env, s.highest) && Extends(env, env2)
  }

  ghost predicate Matches<T>(r: Result<T>, r2: Result<T>) {
    r.Ok? && r2.Ok? && r2.val == r.val && r2.world == r.world && Extends(r.env, r2.env)
  }

  lemma StaysBelow(env: Env, env1: Env, ids: set<ConstId>, all: set<ConstId>, h: nat)
    requires Touches(env, env1, ids) && ids <= all && Below(all, h) && EnvBelow(env, h)
    ensures EnvBelow(env1, h)
  {}

  lemma {:induction false} InlineMeans(
    c: Site, keep: set<FuncId>, fuel: nat, e: Expr, s: ConstTable, env: Env, env2: Env, w: World)
    requires c.p2 == InlinedProgram(c.p, keep) && Placed(c, s, Ids(e), env, env2) && Room(c, After(c, s, e).1)
    requires Eval(c.p, c.sc, fuel, e, env, w).Ok?
    ensures Matches(Eval(c.p, c.sc, fuel, e, env, w), Eval(c.p2, c.sc2, fuel, After(c, s, e).0, env2, w))
    decreases fuel, 0, Size(e), 2
  {
    hide Placed, InlinedProgram, Inlined, Eval, Room;
    if Inlinable(c.p, c.noInline, c.self, e) {
      InlineCallMeans(c, keep, fuel, e, s, env, env2, w);
    } else {
      match e
      case Switch(_, _) => InlineSwitchMeans(c, keep, fuel, e, s, env, env2, w);
      case Call(_, _) => InlineOtherCall(c, keep, fuel, e, s, env, env2, w);
      case CallDyn(_, _, _) => InlineDynMeans(c, keep, fuel, e, s, env, env2, w);
      case CallSelf(_) => InlineSelfMeans(c, keep, fuel, e, s, env, env2, w);
      case _ => InlinePlainMeans(c, keep, fuel, e, s, env, env2, w);
    }
  }

  /** A node that is not inlined keeps its kind. */
  lemma NotInlined(c: Site, s: ConstTable, e: Expr)
    requires !Inlinable(c.p, c.noInline, c.self, e)
    ensures After(c, s, e) == (WithKids(e, AfterAll(c, s, Kids(e)).0), AfterAll(c, s, Kids(e)).1)
    ensures Ids(e) == OwnIds(e) + IdsAll(Kids(e))
  {}

  function OwnIds(e: Expr): set<ConstId> {
    OwnAssigned(e) + if e.ConstRef? then {e.id} else {}
  }

  lemma {:induction false} InlineAllMeans(
    c: Site, keep: set<FuncId>, fuel: nat, es: seq<Expr>, s: ConstTable, env: Env, env2: Env, w: World)
    requires c.p2 == InlinedProgram(c.p, keep) && Placed(c, s, IdsAll(es), env, env2) && Room(c, AfterAll(c, s, es).1)
    requires EvalAll(c.p, c.sc, fuel, es, env, w).Ok?
    ensures Matches(EvalAll(c.p, c.sc, fuel, es, env, w), EvalAll(c.p2, c.sc2, fuel, AfterAll(c, s, es).0, env2, w))
    decreases fuel, 0, SizeAll(es), 3
  {
    hide InlinedProgram, Inlined, Eval, Room, Extended, Ids, IdsAll, GoodSite, After;
    if es != [] {
      var (k, s1) := After(c, s, es[0]);
      var (ks, s2) := AfterAll(c, s1, es[1..]);
      var r := Eval(c.p, c.sc, fuel, es[0], env, w);
      var r2 := Eval(c.p2, c.sc2, fuel, k, env2, w);
      FirstStep(c, s, es, env, env2);
      EvalTouches(c.p, c.sc, fuel, es[0], env, w);
      InlineMeans(c, keep, fuel, es[0], s, env, env2, w);
      StaysBelow(env, r.env, Assigned(es[0]), IdsAll(es), s.highest);
      InlineAllMeans(c, keep, fuel, es[1..], s1, r.env, r2.env, r.world);
      assert ([k] + ks)[1..] == ks;
    }
  }

  /** The facts about a first element and the rest. */
  lemma FirstStep(c: Site, s: ConstTable, es: seq<Expr>, env: Env, env2: Env)
    requires es != [] && Placed(c, s, IdsAll(es), env, env2) && Room(c, AfterAll(c, s, es).1)
    ensures var (k, s1) := After(c, s, es[0]);
            var (ks, s2) := AfterAll(c, s1, es[1..]);
            && AfterAll(c, s, es) == ([k] + ks, s2)
            && Room(c, s1) && Room(c, s2) && Extended(s, s1)
            && Assigned(es[0]) <= IdsAll(es) && IdsAll(es[1..]) <= IdsAll(es)
            && Placed(c, s, Ids(es[0]), env, env2) && s.highest <= s1.highest
            && Assigned(k) <= Assigned(es[0]) + Range(s.highest, s1.highest)
  {
    var (k, s1) := After(c, s, es[0]);
    InlinedShape(c.p, c.noInline, c.self, s, es[0]);
    InlinedAllShape(c.p, c.noInline, c.self, s1, es[1..]);
    RoomBefore(c, s1, AfterAll(c, s1, es[1..]).1);
  }

  lemma {:induction false} InlineCondsMeans(
    c: Site, keep: set<FuncId>, fuel: nat, cs: seq<Expr>, s: ConstTable, env: Env, env2: Env, w: World)
    requires c.p2 == InlinedProgram(c.p, keep) && Placed(c, s, IdsAll(cs), env, env2) && Room(c, AfterAll(c, s, cs).1)
    requires EvalConds(c.p, c.sc, fuel, cs, env, w).Ok?
    ensures Matches(EvalConds(c.p, c.sc, fuel, cs, env, w), EvalConds(c.p2, c.sc2, fuel, AfterAll(c, s, cs).0, env2, w))
    decreases fuel, 0, SizeAll(cs), 3
  {
    hide InlinedProgram, Inlined, Eval, Room, Extended, Ids, IdsAll, GoodSite, After;
    if cs != [] {
      var (k, s1) := After(c, s, cs[0]);
      var (ks, s2) := AfterAll(c, s1, cs[1..]);
      var r := Eval(c.p, c.sc, fuel, cs[0], env, w);
      var r2 := Eval(c.p2, c.sc2, fuel, k, env2, w);
      FirstStep(c, s, cs, env, env2);
      EvalTouches(c.p, c.sc, fuel, cs[0], env, w);
      InlineMeans(c, keep, fuel, cs[0], s, env, env2, w);
      StaysBelow(env, r.env, Assigned(cs[0]), IdsAll(cs), s.highest);
      assert ([k] + ks)[1..] == ks;
      if r.val.i == 0 {
        InlineCondsMeans(c, keep, fuel, cs[1..], s1, r.env, r2.env, r.world);
      }
    }
  }

  lemma {:induction false} InlineSwitchMeans(
    c: Site, keep: set<FuncId>, fuel: nat, e: Expr, s: ConstTable, env: Env, env2: Env, w: World)
    requires c.p2 == InlinedProgram(c.p, keep) && Placed(c, s, Ids(e), env, env2) && Room(c, After(c, s, e).1)
    requires e.Switch? && Eval(c.p, c.sc, fuel, e, env, w).Ok?
    ensures Matches(Eval(c.p, c.sc, fuel, e, env, w), Eval(c.p2, c.sc2, fuel, After(c, s, e).0, env2, w))
    decreases fuel, 0, Size(e), 0
  {
    var cs, bs := e.conds, e.branches;
    var (kc, s1) := AfterAll(c, s, cs);
    var r, r2 := EvalConds(c.p, c.sc, fuel, cs, env, w), EvalConds(c.p2, c.sc2, fuel, kc, env2, w);
    SwitchUnfold(c, s, e, env, env2);
    EvalCondsTouches(c.p, c.sc, fuel, cs, env, w);
    SizeAllCat(cs, bs);
    hide InlinedProgram, Inlined, InlinedAll, Room, Placed, Extended, Ids, After, AfterAll;
    InlineCondsMeans(c, keep, fuel, cs, s, env, env2, w);
    StaysBelow(env, r.env, AssignedAll(cs), Ids(e), s.highest);
    var si := BranchPlaced(c, s, e, r.val, env, env2, r.env, r2.env);
    SizeAt(bs, r.val);
    InlineMeans(c, keep, fuel, bs[r.val], si, r.env, r2.env, r.world);
  }

  lemma SwitchUnfold(c: Site, s: ConstTable, e: Expr, env: Env, env2: Env)
    requires e.Switch? && Placed(c, s, Ids(e), env, env2) && Room(c, After(c, s, e).1)
    ensures var (kc, s1) := AfterAll(c, s, e.conds);
            var (kb, s2) := AfterAll(c, s1, e.branches);
            && After(c, s, e) == (Switch(kc, kb), s2) && Room(c, s1) && Room(c, s2)
            && Placed(c, s, IdsAll(e.conds), env, env2) && s.highest <= s1.highest
            && AssignedAll(e.conds) <= Ids(e) && IdsAll(e.branches) <= Ids(e)
            && Below(Ids(e), s.highest) && EnvBelow(env, s.highest)
  {
    var cs, bs := e.conds, e.branches;
    var (kc, s1) := AfterAll(c, s, cs);
    var (kb, s2) := AfterAll(c, s1, bs);
    NotInlined(c, s, e);
    InlinedCat(c.p, c.noInline, c.self, s, cs, bs);
    InlinedAllShape(c.p, c.noInline, c.self, s, cs);
    InlinedAllShape(c.p, c.noInline, c.self, s1, bs);
    RoomBefore(c, s1, s2);
    IdsCat(cs, bs);
  }

  /** The branch that is taken has its place as well. */
  lemma BranchPlaced(c: Site, s: ConstTable, e: Expr, k: nat, env: Env, env2: Env, env1: Env, env12: Env)
    returns (si: ConstTable)
    requires e.Switch? && Placed(c, s, Ids(e), env, env2) && Room(c, After(c, s, e).1) && k < |e.branches|
    requires EnvBelow(env1, s.highest) && Extends(env1, env12)
    ensures var (b, t) := After(c, si, e.branches[k]);
            && b == AfterAll(c, AfterAll(c, s, e.conds).1, e.branches).0[k] && Room(c, t)
            && Placed(c, si, Ids(e.branches[k]), env1, env12)
  {
    SwitchUnfold(c, s, e, env, env2);
    var s1 := AfterAll(c, s, e.conds).1;
    si := InlinedAt(c.p, c.noInline, c.self, s1, e.branches, k);
    IdsAt(e.branches, k);
    RoomBefore(c, After(c, si, e.branches[k]).1, AfterAll(c, s1, e.branches).1);
  }

  lemma IdsCat(a: seq<Expr>, b: seq<Expr>)
    ensures IdsAll(a + b) == IdsAll(a) + IdsAll(b)
  {
    if a == [] {
      assert a + b == b;
    } else {
      assert (a + b)[1..] == a[1..] + b;
      IdsCat(a[1..], b);
    }
  }

  lemma IdsAt(es: seq<Expr>, i: nat)
    requires i < |es|
    ensures Ids(es[i]) <= IdsAll(es) && Assigned(es[i]) <= AssignedAll(es)
    decreases es
  {
    if i > 0 { IdsAt(es[1..], i - 1); }
  }

  lemma {:induction false} InvokeMeans(
    p: Program, keep: set<FuncId>, fuel: nat, f: FuncId, vals: seq<Value>, w: World)
    requires AllReady(p) && p.IsUser(f) && Invoke(p, fuel, f, vals, w).Ok?
    ensures var p2, r := InlinedProgram(p, keep), Invoke(p, fuel, f, vals, w);
            && p2.IsUser(f) && Invoke(p2, fuel, f, vals, w).Ok?
            && Invoke(p2, fuel, f, vals, w).val == r.val && Invoke(p2, fuel, f, vals, w).world == r.world
    decreases fuel, 1
  {
    assert Ready(p.funcs[f]);
    var p2, kind := InlinedProgram(p, keep), p.funcs[f].kind;
    var s, env := kind.consts, BindInputs(kind.consts.Inputs(), vals);
    InlinedShape(p, keep, f, s, kind.body);
    var c := Site(p, p2, keep, f, FuncScope(p, f), FuncScope(p2, f));
    forall id | id in env ensures id < s.highest { assert id in s.All(); }
    hide Inlined, Assigned, Uses;
    InlineMeans(c, keep, fuel, kind.body, s, env, env, w);
  }

  lemma {:induction false} InlineOtherCall(
    c: Site, keep: set<FuncId>, fuel: nat, e: Expr, s: ConstTable, env: Env, env2: Env, w: World)
    requires c.p2 == InlinedProgram(c.p, keep) && Placed(c, s, Ids(e), env, env2) && Room(c, After(c, s, e).1)
    requires e.Call? && !Inlinable(c.p, c.noInline, c.self, e) && Eval(c.p, c.sc, fuel, e, env, w).Ok?
    ensures Matches(Eval(c.p, c.sc, fuel, e, env, w), Eval(c.p2, c.sc2, fuel, After(c, s, e).0, env2, w))
    decreases fuel, 0, Size(e), 0
  {
    NotInlined(c, s, e);
    var r := EvalAll(c.p, c.sc, fuel, e.args, env, w);
    assert GoodSite(c) && c.p2.funcs[e.func] == InlinedFunc(c.p, keep, e.func);
    hide Inlined, InlinedAll, Inlinable, Room, Ids, IdsAll;
    InlineAllMeans(c, keep, fuel, e.args, s, env, env2, w);
    if c.p.IsUser(e.func) {
      InvokeMeans(c.p, keep, fuel - 1, e.func, r.val, r.world);
    } else {
      SameIntrinsic(c.p, c.p2, c.p.funcs[e.func].kind, r.val, r.world);
    }
  }

  lemma {:induction false} InlineDynMeans(
    c: Site, keep: set<FuncId>, fuel: nat, e: Expr, s: ConstTable, env: Env, env2: Env, w: World)
    requires c.p2 == InlinedProgram(c.p, keep) && Placed(c, s, Ids(e), env, env2) && Room(c, After(c, s, e).1)
    requires e.CallDyn? && Eval(c.p, c.sc, fuel, e, env, w).Ok?
    ensures Matches(Eval(c.p, c.sc, fuel, e, env, w), Eval(c.p2, c.sc2, fuel, After(c, s, e).0, env2, w))
    decreases fuel, 0, Size(e), 0
  {
    hide Assigned, OwnAssigned, Uses;
    var (k, s1) := After(c, s, e.tgt);
    var (ks, s2) := AfterAll(c, s1, e.args);
    NotInlined(c, s, e);
    var r := EvalAll(c.p, c.sc, fuel, e.args, env, w);
    var r2 := EvalAll(c.p2, c.sc2, fuel, ks, env2, w);
    var t := Eval(c.p, c.sc, fuel, e.tgt, r.env, r.world);
    DynUnfold(c, s, e, env, env2);
    EvalAllTouches(c.p, c.sc, fuel, e.args, env, w);
    assert AllReady(c.p) && c.p2.funcs[t.val.func] == InlinedFunc(c.p, keep, t.val.func);
    hide Inlined, InlinedAll, Inlinable, Room, Ids, IdsAll, Placed, Extended, AllReady, InlinedProgram, HasType;
    InlineAllMeans(c, keep, fuel, e.args, s1, env, env2, w);
    StaysBelow(env, r.env, AssignedAll(e.args), Ids(e), s.highest);
    DynPlaced(c, s, e, env, env2, r.env, r2.env);
    InlineMeans(c, keep, fuel, e.tgt, s, r.env, r2.env, r.world);
    InvokeMeans(c.p, keep, fuel - 1, t.val.func, r.val + t.val.bound, t.world);
  }

  lemma DynPlaced(c: Site, s: ConstTable, e: Expr, env: Env, env2: Env, env1: Env, env12: Env)
    requires e.CallDyn? && Placed(c, s, Ids(e.tgt), env, env2) && EnvBelow(env1, s.highest) && Extends(env1, env12)
    ensures Placed(c, s, Ids(e.tgt), env1, env12)
  {}

  lemma DynUnfold(c: Site, s: ConstTable, e: Expr, env: Env, env2: Env)
    requires e.CallDyn? && Placed(c, s, Ids(e), env, env2) && Room(c, After(c, s, e).1)
    ensures var (k, s1) := After(c, s, e.tgt);
            var (ks, s2) := AfterAll(c, s1, e.args);
            && After(c, s, e) == (CallDyn(k, ks, e.act), s2) && Room(c, s1) && Room(c, s2)
            && Placed(c, s1, IdsAll(e.args), env, env2) && Placed(c, s, Ids(e.tgt), env, env2)
            && AssignedAll(e.args) <= Ids(e) && Below(Ids(e), s.highest) && EnvBelow(env, s.highest)
            && SizeAll(e.args) < Size(e)
  {
    NotInlined(c, s, e);
    InlinedCat(c.p, c.noInline, c.self, s, [e.tgt], e.args);
    var (k, s1) := After(c, s, e.tgt);
    InlinedOne(c, s, e.tgt);
    InlinedShape(c.p, c.noInline, c.self, s, e.tgt);
    InlinedAllShape(c.p, c.noInline, c.self, s1, e.args);
    RoomBefore(c, s1, AfterAll(c, s1, e.args).1);
    IdsCat([e.tgt], e.args);
    IdsAt([e.tgt], 0);
  }

  lemma InlinedOne(c: Site, s: ConstTable, e: Expr)
    ensures AfterAll(c, s, [e]) == ([After(c, s, e).0], After(c, s, e).1)
    ensures IdsAll([e]) == Ids(e)
  {
    var es, k, s1 := [e], After(c, s, e).0, After(c, s, e).1;
    assert es[1..] == [] && [k] + [] == [k];
    assert InlinedAll(c.p, c.noInline, c.self, s1, []) == ([], s1);
    assert UsesAll(es) == Uses(e) + UsesAll(es[1..]) && AssignedAll(es) == Assigned(e) + AssignedAll(es[1..]);
  }

  lemma {:induction false} InlineSelfMeans(
    c: Site, keep: set<FuncId>, fuel: nat, e: Expr, s: ConstTable, env: Env, env2: Env, w: World)
    requires c.p2 == InlinedProgram(c.p, keep) && Placed(c, s, Ids(e), env, env2) && Room(c, After(c, s, e).1)
    requires e.CallSelf? && Eval(c.p, c.sc, fuel, e, env, w).Ok?
    ensures Matches(Eval(c.p, c.sc, fuel, e, env, w), Eval(c.p2, c.sc2, fuel, After(c, s, e).0, env2, w))
    decreases fuel, 0, Size(e), 0
  {
    hide ToSet, InlinedFunc, Uses;
    NotInlined(c, s, e);
    var r, ids := EvalAll(c.p, c.sc, fuel, e.args, env, w), c.sc.consts.bound;
    var r2 := EvalAll(c.p2, c.sc2, fuel, AfterAll(c, s, e.args).0, env2, w);
    assert GoodSite(c) && c.p2.funcs[c.sc.func.value] == InlinedFunc(c.p, keep, c.sc.func.value);
    assert Placed(c, s, IdsAll(e.args), env, env2);
    hide Inlined, InlinedAll, Inlinable, Room, Ids, IdsAll, AllReady, InlinedProgram, Extended, Below, EnvBelow;
    InlineAllMeans(c, keep, fuel, e.args, s, env, env2, w);
    LookupsExtended(r.env, r2.env, ids);
    InvokeMeans(c.p, keep, fuel - 1, c.sc.func.value, r.val + Lookups(r.env, ids).value, r.world);
  }

  lemma LookupsExtended(env: Env, env2: Env, ids: seq<ConstId>)
    requires Extends(env, env2) && Lookups(env, ids).Some?
    ensures Lookups(env2, ids) == Lookups(env, ids)
  {
    assert forall i :: 0 <= i < |ids| ==> ids[i] in env2;
    assert Lookups(env2, ids).value == Lookups(env, ids).value;
  }

  lemma {:induction false} InlinePlainMeans(
    c: Site, keep: set<FuncId>, fuel: nat, e: Expr, s: ConstTable, env: Env, env2: Env, w: World)
    requires c.p2 == InlinedProgram(c.p, keep) && Placed(c, s, Ids(e), env, env2) && Room(c, After(c, s, e).1)
    requires !e.Switch? && !e.Call? && !e.CallDyn? && !e.CallSelf? && Eval(c.p, c.sc, fuel, e, env, w).Ok?
    ensures Matches(Eval(c.p, c.sc, fuel, e, env, w), Eval(c.p2, c.sc2, fuel, After(c, s, e).0, env2, w))
    decreases fuel, 0, Size(e), 1
  {
    match e
    case Group(es) => NotInlined(c, s, e); InlineAllMeans(c, keep, fuel, es, s, env, env2, w);
    case Closure(_, _) => InlineClosureMeans(c, keep, fuel, e, s, env, env2, w);
    case Assign(_, _) => InlineAssignMeans(c, keep, fuel, e, s, env, env2, w);
    case Field(_, _, _) => InlineLhsMeans(c, keep, fuel, e, s, env, env2, w);
    case UnionCheck(_, _, _) => InlineLhsMeans(c, keep, fuel, e, s, env, env2, w);
    case UnionGet(_, _, _, _) => InlineGetMeans(c, keep, fuel, e, s, env, env2, w);
    case _ => InlineLeafMeans(c, keep, fuel, e, s, env, env2, w);
  }

  lemma {:induction false} InlineLeafMeans(
    c: Site, keep: set<FuncId>, fuel: nat, e: Expr, s: ConstTable, env: Env, env2: Env, w: World)
    requires c.p2 == InlinedProgram(c.p, keep) && Placed(c, s, Ids(e), env, env2) && Room(c, After(c, s, e).1)
    requires Kids(e) == [] && !e.Group? && !e.Switch? && !e.Call? && !e.CallDyn? && !e.CallSelf? && !e.Closure? && Eval(c.p, c.sc, fuel, e, env, w).Ok?
    ensures Matches(Eval(c.p, c.sc, fuel, e, env, w), Eval(c.p2, c.sc2, fuel, After(c, s, e).0, env2, w))
    decreases fuel, 0, Size(e), 0
  {
    NotInlined(c, s, e);
    if e.LitFunc? { assert c.p2.funcs[e.func] == InlinedFunc(c.p, keep, e.func); }
    hide InlinedProgram, Inlined, InlinedAll;
  }

  lemma {:induction false} InlineClosureMeans(
    c: Site, keep: set<FuncId>, fuel: nat, e: Expr, s: ConstTable, env: Env, env2: Env, w: World)
    requires c.p2 == InlinedProgram(c.p, keep) && Placed(c, s, Ids(e), env, env2) && Room(c, After(c, s, e).1)
    requires e.Closure? && Eval(c.p, c.sc, fuel, e, env, w).Ok?
    ensures Matches(Eval(c.p, c.sc, fuel, e, env, w), Eval(c.p2, c.sc2, fuel, After(c, s, e).0, env2, w))
    decreases fuel, 0, Size(e), 0
  {
    NotInlined(c, s, e);
    assert c.p2.funcs[e.func] == InlinedFunc(c.p, keep, e.func) && AllReady(c.p);
    hide InlinedProgram, InlinedFunc, Inlined, InlinedAll, Room, AllReady, Ids, IdsAll, Extended;
    InlineAllMeans(c, keep, fuel, e.boundArgs, s, env, env2, w);
    InputsKept(c.p, keep, e.func);
  }

  lemma {:induction false} InlineAssignMeans(
    c: Site, keep: set<FuncId>, fuel: nat, e: Expr, s: ConstTable, env: Env, env2: Env, w: World)
    requires c.p2 == InlinedProgram(c.p, keep) && Placed(c, s, Ids(e), env, env2) && Room(c, After(c, s, e).1)
    requires e.Assign? && Eval(c.p, c.sc, fuel, e, env, w).Ok?
    ensures Matches(Eval(c.p, c.sc, fuel, e, env, w), Eval(c.p2, c.sc2, fuel, After(c, s, e).0, env2, w))
    decreases fuel, 0, Size(e), 0
  {
    NotInlined(c, s, e);
    hide InlinedProgram, Inlined, InlinedAll, Room, AllReady;
    InlineOneMeans(c, keep, fuel, e, e.init, 0, s, env, env2, w);
  }

  lemma {:induction false} InlineLhsMeans(
    c: Site, keep: set<FuncId>, fuel: nat, e: Expr, s: ConstTable, env: Env, env2: Env, w: World)
    requires c.p2 == InlinedProgram(c.p, keep) && Placed(c, s, Ids(e), env, env2) && Room(c, After(c, s, e).1)
    requires (e.Field? || e.UnionCheck?) && Eval(c.p, c.sc, fuel, e, env, w).Ok?
    ensures Matches(Eval(c.p, c.sc, fuel, e, env, w), Eval(c.p2, c.sc2, fuel, After(c, s, e).0, env2, w))
    decreases fuel, 0, Size(e), 0
  {
    NotInlined(c, s, e);
    hide Inlined, InlinedAll, Room, AllReady, InlinedProgram, HasType, Ids, IdsAll, Placed;
    InlineOneMeans(c, keep, fuel, e, e.lhs, if e.Field? then e.stype else e.utype, s, env, env2, w);
  }

  lemma {:induction false} InlineGetMeans(
    c: Site, keep: set<FuncId>, fuel: nat, e: Expr, s: ConstTable, env: Env, env2: Env, w: World)
    requires c.p2 == InlinedProgram(c.p, keep) && Placed(c, s, Ids(e), env, env2) && Room(c, After(c, s, e).1)
    requires e.UnionGet? && Eval(c.p, c.sc, fuel, e, env, w).Ok?
    ensures Matches(Eval(c.p, c.sc, fuel, e, env, w), Eval(c.p2, c.sc2, fuel, After(c, s, e).0, env2, w))
    decreases fuel, 0, Size(e), 0
  {
    NotInlined(c, s, e);
    hide Inlined, InlinedAll, Room, AllReady, InlinedProgram, HasType, IdsAll;
    InlineOneMeans(c, keep, fuel, e, e.lhs, e.utype, s, env, env2, w);
  }

  lemma InputsKept(p: Program, keep: set<FuncId>, f: FuncId)
    requires AllReady(p) && p.IsUser(f)
    ensures InlinedFunc(p, keep, f).kind.User?
    ensures InlinedFunc(p, keep, f).kind.consts.bound == p.funcs[f].kind.consts.bound
  {
    InlinedShape(p, keep, f, p.funcs[f].kind.consts, p.funcs[f].kind.body);
  }

  lemma {:induction false} InlineOneMeans(
    c: Site, keep: set<FuncId>, fuel: nat, e: Expr, x: Expr, t: TypeId, s: ConstTable, env: Env, env2: Env, w: World)
    requires c.p2 == InlinedProgram(c.p, keep) && Placed(c, s, Ids(e), env, env2) && Room(c, AfterAll(c, s, [x]).1)
    requires Kids(e) == [x] && Eval(c.p, c.sc, fuel, x, env, w).Ok?
    ensures Matches(Eval(c.p, c.sc, fuel, x, env, w), Eval(c.p2, c.sc2, fuel, After(c, s, x).0, env2, w))
    ensures AfterAll(c, s, [x]).0 == [After(c, s, x).0]
    ensures var v := Eval(c.p, c.sc, fuel, x, env, w).val; HasType(c.p2, v, t) == HasType(c.p, v, t)
    decreases fuel, 0, Size(x), 3
  {
    InlinedOne(c, s, x);
    TypesDecide(c.p, c.p2, Eval(c.p, c.sc, fuel, x, env, w).val, t);
    assert Ids(x) <= Ids(e) by { assert IdsAll(Kids(e)) == Ids(x); }
    InlineMeans(c, keep, fuel, x, s, env, env2, w);
  }

  // ----- An inlined call -----

  /** Assigning the rewritten arguments to new constants binds these to the values of the arguments. */
  lemma {:induction false} ArgsMean(
    c: Site, keep: set<FuncId>, fuel: nat, news: seq<ConstId>, es: seq<Expr>, lo: nat, s: ConstTable,
    env: Env, env2: Env, w: World)
    requires c.p2 == InlinedProgram(c.p, keep) && Placed(c, s, IdsAll(es), env, env2) && Room(c, AfterAll(c, s, es).1)
    requires |news| == |es| && Distinct(news) && Between(c, news, lo, s.highest)
    requires Below(IdsAll(es), lo) && EnvBelow(env, lo)
    requires EvalAll(c.p, c.sc, fuel, es, env, w).Ok?
    ensures var r := EvalAll(c.p, c.sc, fuel, es, env, w);
            var r2 := EvalAll(c.p2, c.sc2, fuel, Assigns(news, AfterAll(c, s, es).0), env2, w);
            Matches(r, r2) && Bound(r2.env, news, r.val) && KeepsOthers(env2, r2.env, news, lo, s.highest)
    decreases fuel, 0, SizeAll(es), 4
  {
    if es != [] {
      var r := Eval(c.p, c.sc, fuel, es[0], env, w);
      var s1, k, ks, env3 := ArgMeans(c, keep, fuel, news, es, lo, s, env, env2, w);
      hide InlinedProgram, InlinedAll, Inlined, Placed, Room, Ids, IdsAll, Eval, Distinct;
      DistinctRest(c, news, lo, s.highest, s1.highest);
      ArgsMean(c, keep, fuel, news[1..], es[1..], lo, s1, r.env, env3, r.world);
      var vs := EvalAll(c.p, c.sc, fuel, es[1..], r.env, r.world).val;
      var rest := Assigns(news[1..], ks);
      var r3 := EvalAll(c.p2, c.sc2, fuel, rest, env3, r.world);
      AssignsFirst(news, k, ks);
      ArgsKept(env2, env3, r3.env, news, r.val, vs, lo, s.highest, s1.highest);
    }
  }

  lemma AssignsFirst(news: seq<ConstId>, k: Expr, ks: seq<Expr>)
    requires |news| == |ks| + 1
    ensures Assigns(news, [k] + ks)[0] == Assign(news[0], k) && Assigns(news, [k] + ks)[1..] == Assigns(news[1..], ks)
  {}

  lemma DistinctRest(c: Site, news: seq<ConstId>, lo: nat, hi: nat, hi1: nat)
    requires news != [] && Distinct(news) && Between(c, news, lo, hi) && hi <= hi1
    ensures Distinct(news[1..]) && Between(c, news[1..], lo, hi1)
  {
    assert news == [news[0]] + news[1..];
  }

  /** One argument. */
  lemma {:induction false} ArgMeans(
    c: Site, keep: set<FuncId>, fuel: nat, news: seq<ConstId>, es: seq<Expr>, lo: nat, s: ConstTable,
    env: Env, env2: Env, w: World)
    returns (s1: ConstTable, k: Expr, ks: seq<Expr>, env3: Env)
    requires c.p2 == InlinedProgram(c.p, keep) && Placed(c, s, IdsAll(es), env, env2) && Room(c, AfterAll(c, s, es).1)
    requires |news| == |es| && Between(c, news, lo, s.highest) && es != []
    requires Below(IdsAll(es), lo) && EnvBelow(env, lo) && Eval(c.p, c.sc, fuel, es[0], env, w).Ok?
    ensures AfterAll(c, s, es) == ([k] + ks, AfterAll(c, s1, es[1..]).1) && ks == AfterAll(c, s1, es[1..]).0
    ensures var r := Eval(c.p, c.sc, fuel, es[0], env, w);
            && Eval(c.p2, c.sc2, fuel, Assign(news[0], k), env2, w) == Ok(r.val, env3, r.world)
            && Placed(c, s1, IdsAll(es[1..]), r.env, env3) && Room(c, AfterAll(c, s1, es[1..]).1)
            && Below(IdsAll(es[1..]), lo) && EnvBelow(r.env, lo) && s.highest <= s1.highest
            && news[0] in env3 && env3[news[0]] == r.val && KeepsOthers(env2, env3, [news[0]], lo, s.highest)
    decreases fuel, 0, SizeAll(es), 3
  {
    k, s1 := After(c, s, es[0]).0, After(c, s, es[0]).1;
    ks := AfterAll(c, s1, es[1..]).0;
    var r := Eval(c.p, c.sc, fuel, es[0], env, w);
    var r2 := Eval(c.p2, c.sc2, fuel, k, env2, w);
    FirstStep(c, s, es, env, env2);
    EvalTouches(c.p, c.sc, fuel, es[0], env, w);
    InlineMeans(c, keep, fuel, es[0], s, env, env2, w);
    EvalTouches(c.p2, c.sc2, fuel, k, env2, w);
    env3 := r2.env[news[0] := r.val];
    assert news[0] in news;
    assert Eval(c.p2, c.sc2, fuel, Assign(news[0], k), env2, w) == Ok(r.val, env3, r.world);
    hide InlinedProgram, InlinedAll, Inlined, Room, IdsAll, Eval, GoodSite;
    StaysBelow(env, r.env, Assigned(es[0]), IdsAll(es), lo);
    StaysBelow(env, r.env, Assigned(es[0]), IdsAll(es), s.highest);
    OldOnesKept(env2, r2.env, Assigned(k), Assigned(es[0]), lo, s.highest, s1.highest);
    PlacedNext(c, s, s1, es, env, env2, r.env, env3);
  }

  lemma OldOnesKept(env: Env, env2: Env, ids: set<ConstId>, old1: set<ConstId>, lo: nat, mid: nat, hi: nat)
    requires Touches(env, env2, ids) && ids <= old1 + Range(mid, hi) && Below(old1, lo)
    ensures KeepsOthers(env, env2, [], lo, mid)
  {}

  lemma PlacedNext(
    c: Site, s: ConstTable, s1: ConstTable, es: seq<Expr>, env: Env, env2: Env, env1: Env, env3: Env)
    requires es != [] && Placed(c, s, IdsAll(es), env, env2) && s.highest <= s1.highest
    requires EnvBelow(env1, s.highest) && Extends(env1, env3)
    ensures Placed(c, s1, IdsAll(es[1..]), env1, env3) && Below(IdsAll(es[1..]), s.highest)
  {}

  lemma ArgsKept(
    env2: Env, env3: Env, end: Env, news: seq<ConstId>, v: Value, vs: seq<Value>, lo: nat, hi: nat, hi1: nat)
    requires news != [] && Distinct(news) && (forall n | n in news :: lo <= n < hi) && hi <= hi1
    requires KeepsOthers(env2, env3, [news[0]], lo, hi) && news[0] in env3 && env3[news[0]] == v
    requires Bound(end, news[1..], vs) && KeepsOthers(env3, end, news[1..], lo, hi1)
    ensures Bound(end, news, [v] + vs) && KeepsOthers(env2, end, news, lo, hi)
  {
    assert news[0] !in news[1..] && news[0] in news;
    assert forall i :: 0 < i < |news| ==> news[1..][i - 1] == news[i];
    forall i | 0 <= i < |news| ensures news[i] in end && end[news[i]] == ([v] + vs)[i] {
      if i == 0 {
        assert end[news[0]] == env3[news[0]];
      } else {
        assert news[1..][i - 1] in end;
      }
    }
  }

  /** The values bound to constants. */
  predicate Bound(env: Env, news: seq<ConstId>, vals: seq<Value>) {
    |news| == |vals| && forall i :: 0 <= i < |news| ==> news[i] in env && env[news[i]] == vals[i]
  }

  predicate KeepsOthers(env: Env, env2: Env, news: seq<ConstId>, lo: nat, hi: nat) {
    forall id | id in env && lo <= id < hi && id !in news :: id in env2 && env2[id] == env[id]
  }

  ghost predicate Between(c: Site, news: seq<ConstId>, lo: nat, hi: nat) {
    forall n | n in news :: lo <= n < hi && c.sc2.consts.Has(n)
  }

  lemma {:induction false} InlineCallMeans(
    c: Site, keep: set<FuncId>, fuel: nat, e: Expr, s: ConstTable, env: Env, env2: Env, w: World)
    requires c.p2 == InlinedProgram(c.p, keep) && Placed(c, s, Ids(e), env, env2) && Room(c, After(c, s, e).1)
    requires Inlinable(c.p, c.noInline, c.self, e) && Eval(c.p, c.sc, fuel, e, env, w).Ok?
    ensures Matches(Eval(c.p, c.sc, fuel, e, env, w), Eval(c.p2, c.sc2, fuel, After(c, s, e).0, env2, w))
    decreases fuel, 0, Size(e), 0
  {
    var u := CallUnfold(c.p, c.noInline, c.self, s, e);
    CallPlaced(c, s, e, u, env, env2);
    var kind := c.p.funcs[e.func].kind;
    var r := EvalAll(c.p, c.sc, fuel, e.args, env, w);
    var assigns := Assigns(u.news, u.args);
    var ra := EvalAll(c.p2, c.sc2, fuel, assigns, env2, w);
    var envF := BindInputs(kind.consts.Inputs(), r.val);
    var rf := Eval(c.p, FuncScope(c.p, e.func), fuel - 1, kind.body, envF, r.world);
    assert rf.Ok? && Eval(c.p, c.sc, fuel, e, env, w) == Ok(rf.val, r.env, rf.world);
    assert c.p.funcs[e.func].isAction ==> c.sc.isAction;
    EvalAllTouches(c.p, c.sc, fuel, e.args, env, w);
    StaysBelow(env, r.env, AssignedAll(e.args), IdsAll(e.args), s.highest);
    hide Inlined, InlinedAll, Remapped, Placed, Room, Extended, InlinedProgram, Inlinable, Ids, IdsAll, Renamable, Eval, GoodSite, BindInputs, Called, Names, Injective;
    ArgsMean(c, keep, fuel, u.news, e.args, s.highest, u.s0, env, env2, w);
    var rl := InlinedBodyMeans(c, keep, fuel, e, u, s, r.env, ra.env, r.val, r.world);
    GroupedEval(c.p2, c.sc2, fuel, assigns, u.last, env2, w);
  }

  /** The body of the call, where the inputs are bound under their new names. */
  lemma {:induction false} InlinedBodyMeans(
    c: Site, keep: set<FuncId>, fuel: nat, e: Expr, u: Unfolded, s: ConstTable, env: Env, env2: Env,
    vals: seq<Value>, w: World)
    returns (rl: Result<Value>)
    requires c.p2 == InlinedProgram(c.p, keep) && GoodSite(c) && fuel > 0 && e.Call? && c.p.IsUser(e.func)
    requires u.body == Remapped(u.t, c.p.funcs[e.func].kind.body) && (u.last, u.s2) == After(c, u.s1, u.body)
    requires Room(c, u.s0) && Room(c, u.s2) && Extended(s, u.s0) && s.highest <= u.s0.highest <= u.s1.highest
    requires Injective(u.t) && u.t.Values <= Range(s.highest, u.s0.highest) && ToSet(u.news) <= u.t.Values
    requires Renamable(u.t, c.p.funcs[e.func].kind.body)
    requires Ids(u.body) <= u.t.Values && Assigned(u.body) <= u.t.Values
    requires Names(u.t, c.p.funcs[e.func].kind.consts.Inputs(), u.news) && |vals| == |u.news|
    requires |vals| == |c.p.funcs[e.func].kind.consts.Inputs()|
    requires Extends(env, env2) && EnvBelow(env, s.highest) && Bound(env2, u.news, vals)
    requires c.p.funcs[e.func].isAction ==> c.sc.isAction
    requires var kind := c.p.funcs[e.func].kind;
             Eval(c.p, FuncScope(c.p, e.func), fuel - 1, kind.body, BindInputs(kind.consts.Inputs(), vals), w).Ok?
    ensures rl == Eval(c.p2, c.sc2, fuel, u.last, env2, w)
    ensures var kind := c.p.funcs[e.func].kind;
            var r := Eval(c.p, FuncScope(c.p, e.func), fuel - 1, kind.body, BindInputs(kind.consts.Inputs(), vals), w);
            rl.Ok? && rl.val == r.val && rl.world == r.world && Extends(env, rl.env)
    decreases fuel - 1, 1
  {
    hide Inlined, InlinedAll, Remapped, Placed, Room, Extended, InlinedProgram, Ids, IdsAll, Renamable, Eval, BindInputs, Called, Names, Injective;
    var kind := c.p.funcs[e.func].kind;
    var envF := BindInputs(kind.consts.Inputs(), vals);
    var envM := Known(env2, u.s1.highest);
    KnownFits(u, s, env, env2, envF, kind.consts.Inputs(), vals);
    var c2 := c.(sc := c.sc.(consts := c.sc2.consts));
    BodyRoom(c, e.func, u, s);
    RemapMeans(c.p, u.t, FuncScope(c.p, e.func), c2.sc, fuel - 1, kind.body, envF, envM, w);
    var rm := Eval(c.p, c2.sc, fuel - 1, u.body, envM, w);
    EvalTouches(c.p, c2.sc, fuel - 1, u.body, envM, w);
    BodyPlaced(c, c2, e.func, u, envM, env2);
    InlineMeans(c2, keep, fuel - 1, u.body, u.s1, envM, env2, w);
    rl := Eval(c.p2, c.sc2, fuel - 1, u.last, env2, w);
    MoreFuel(c.p2, c.sc2, fuel - 1, u.last, env2, w);
    CallerKept(u, s, env, envM, rm.env, rl.env);
  }

  /** The original part of an environment that has grown. */
  function Known(env: Env, h: nat): Env {
    map id | id in env && id < h :: env[id]
  }

  lemma CallPlaced(c: Site, s: ConstTable, e: Expr, u: Unfolded, env: Env, env2: Env)
    requires Inlinable(c.p, c.noInline, c.self, e) && Kids(e) == e.args
    requires Placed(c, s, Ids(e), env, env2) && Room(c, After(c, s, e).1)
    requires (u.args, u.s1) == AfterAll(c, u.s0, e.args) && (u.last, u.s2) == After(c, u.s1, u.body)
    requires After(c, s, e).1 == u.s2 && Extended(s, u.s0)
    requires u.t.Values <= Range(s.highest, u.s0.highest) && ToSet(u.news) <= u.t.Values
    ensures Placed(c, u.s0, IdsAll(e.args), env, env2) && Room(c, u.s0) && Room(c, u.s1) && Room(c, u.s2)
    ensures Between(c, u.news, s.highest, u.s0.highest) && Below(IdsAll(e.args), s.highest) && EnvBelow(env, s.highest)
    ensures s.highest <= u.s0.highest <= u.s1.highest && SizeAll(e.args) < Size(e) && GoodSite(c)
    ensures AssignedAll(e.args) <= IdsAll(e.args)
  {
    hide Inlined, InlinedAll;
    InlinedAllShape(c.p, c.noInline, c.self, u.s0, e.args);
    InlinedShape(c.p, c.noInline, c.self, u.s1, u.body);
    assert Ids(e) == {} + IdsAll(e.args);
    hide Inlinable;
    RoomBefore(c, u.s1, u.s2);
    RoomBefore(c, u.s0, u.s1);
    forall n | n in u.news ensures s.highest <= n < u.s0.highest && c.sc2.consts.Has(n) {
      assert n in ToSet(u.news);
      assert u.s0.Has(n);
    }
  }

  /** After the arguments: the caller's constants and the inputs under their new names. */
  lemma KnownFits(
    u: Unfolded, s: ConstTable, env: Env, env2: Env, envF: Env, ids: seq<ConstId>, vals: seq<Value>)
    requires Extends(env, env2) && EnvBelow(env, s.highest) && s.highest <= u.s0.highest <= u.s1.highest
    requires Bound(env2, u.news, vals) && Names(u.t, ids, u.news) && ToSet(u.news) <= u.t.Values
    requires u.t.Values <= Range(s.highest, u.s0.highest) && |ids| == |vals| && envF == BindInputs(ids, vals)
    ensures var envM := Known(env2, u.s1.highest);
            Extends(env, envM) && Extends(envM, env2) && EnvBelow(envM, u.s1.highest) && Renames(u.t, envF, envM)
  {
    var envM := Known(env2, u.s1.highest);
    forall id | id in envF ensures id in u.t && u.t[id] in envM && envM[u.t[id]] == envF[id] {
      var i := IndexOf(ids, id);
      assert u.news[i] == u.t[id] && u.news[i] in ToSet(u.news);
    }
  }

  lemma BodyRoom(c: Site, f: FuncId, u: Unfolded, s: ConstTable)
    requires Injective(u.t) && u.t.Values <= Range(s.highest, u.s0.highest) && Room(c, u.s0) && Extended(s, u.s0)
    requires c.p.IsUser(f) && (c.p.funcs[f].isAction ==> c.sc.isAction)
    ensures HasRoom(u.t, FuncScope(c.p, f), c.sc.(consts := c.sc2.consts))
  {
    forall id | id in u.t ensures c.sc2.consts.Has(u.t[id]) {
      assert u.t[id] in u.t.Values;
      assert u.s0.Has(u.t[id]);
    }
  }

  lemma BodyPlaced(c: Site, c2: Site, f: FuncId, u: Unfolded, envM: Env, env2: Env)
    requires GoodSite(c) && c2 == c.(sc := c.sc.(consts := c.sc2.consts)) && Room(c, u.s2)
    requires (u.last, u.s2) == After(c, u.s1, u.body)
    requires Ids(u.body) <= u.t.Values && Below(u.t.Values, u.s1.highest)
    requires EnvBelow(envM, u.s1.highest) && Extends(envM, env2)
    ensures Placed(c2, u.s1, Ids(u.body), envM, env2) && Room(c2, After(c2, u.s1, u.body).1)
    ensures After(c2, u.s1, u.body) == (u.last, u.s2)
  {}

  /** The body changes no constant of the caller. */
  lemma CallerKept(u: Unfolded, s: ConstTable, env: Env, envM: Env, envR: Env, end: Env)
    requires Extends(env, envM) && EnvBelow(env, s.highest) && u.t.Values <= Range(s.highest, u.s0.highest)
    requires Touches(envM, envR, Assigned(u.body)) && Assigned(u.body) <= u.t.Values && Extends(envR, end)
    ensures Extends(env, end)
  {}

  lemma {:induction false} GroupedEval(p: Program, sc: Scope, fuel: nat, es: seq<Expr>, e: Expr, env: Env, w: World)
    requires EvalAll(p, sc, fuel, es, env, w).Ok?
    requires var r := EvalAll(p, sc, fuel, es, env, w); Eval(p, sc, fuel, e, r.env, r.world).Ok?
    ensures var r := EvalAll(p, sc, fuel, es, env, w);
            Eval(p, sc, fuel, Regroup(es + [e]), env, w) == Eval(p, sc, fuel, e, r.env, r.world)
  {
    EvalSnoc(p, sc, fuel, es, e, env, w);
    if es == [] { assert [] + [e] == [e]; }
  }

  lemma {:induction false} EvalSnoc(p: Program, sc: Scope, fuel: nat, es: seq<Expr>, e: Expr, env: Env, w: World)
    requires EvalAll(p, sc, fuel, es, env, w).Ok?
    requires var r := EvalAll(p, sc, fuel, es, env, w); Eval(p, sc, fuel, e, r.env, r.world).Ok?
    ensures var r := EvalAll(p, sc, fuel, es, env, w);
            var r2 := Eval(p, sc, fuel, e, r.env, r.world);
            EvalAll(p, sc, fuel, es + [e], env, w) == Ok(r.val + [r2.val], r2.env, r2.world)
    decreases |es|
  {
    if es == [] {
      assert [] + [e] == [e];
      AllOfOne(p, sc, fuel, e, env, w);
      var v := Eval(p, sc, fuel, e, env, w).val;
      assert [] + [v] == [v];
    } else {
      assert (es + [e])[1..] == es[1..] + [e];
      var r := Eval(p, sc, fuel, es[0], env, w);
      EvalSnoc(p, sc, fuel, es[1..], e, r.env, r.world);
      var r1 := EvalAll(p, sc, fuel, es[1..], r.env, r.world);
      var r2 := Eval(p, sc, fuel, e, r1.env, r1.world);
      assert [r.val] + (r1.val + [r2.val]) == [r.val] + r1.val + [r2.val];
    }
  }

  // ----- Whole programs -----

  /** The main theorem: a program whose execute statements run to their end does so with the same
      actions in the same order, and using the same replies, once its calls are inlined. */
  lemma ProgramMeans(p: Program, keep: set<FuncId>, fuel: nat, w: World)
    requires AllReady(p) && RunExecs(p, fuel, p.execs, w).Some?
    ensures RunExecs(InlinedProgram(p, keep), fuel, p.execs, w) == RunExecs(p, fuel, p.execs, w)
  {
    var p2 := InlinedProgram(p, keep);
    forall f | 0 <= f < |p.funcs| ensures SameFunc(p.funcs[f], p2.funcs[f]) {
      if p.IsUser(f) {
        assert Ready(p.funcs[f]);
        InlinedShape(p, keep, f, p.funcs[f].kind.consts, p.funcs[f].kind.body);
      }
    }
    forall k: nat, f: FuncId, vals: seq<Value>, w: World
      | k < fuel && p.IsUser(f) && Invoke(p, k, f, vals, w).Ok?
      ensures CallAgrees(p, p2, k, f, vals, w)
    {
      InvokeMeans(p, keep, k, f, vals, w);
    }
    ExecsUnchanged(p, p2, fuel, p.execs, w);
  }
}
