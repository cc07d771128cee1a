/** Which constants const elimination removes, said of the nodes of their initialisers, and how often
    constants are used. */
module ConstElimChoice {
  import opened Lang
  import opened Trees
  import opened Purity
  import opened Effects
  import opened ConstElim
  import opened ConstElimMeaning
  import SelfCallKept

  type Usage = map<ConstId, nat>

  // ----- Counting uses -----

  /** How often e reads the constant. */
  function Occurrences(id: ConstId, e: Expr): nat
    decreases Size(e), 0
  {
    (if e == ConstRef(id) then 1 else 0) + OccurrencesAll(id, Kids(e))
  }

  function OccurrencesAll(id: ConstId, es: seq<Expr>): nat
    decreases SizeAll(es), 1
  {
    if es == [] then 0 else Occurrences(id, es[0]) + OccurrencesAll(id, es[1..])
  }

  function Count(usage: Usage, id: ConstId): nat {
    if id in usage then usage[id] else 0
  }

  /** The visitor that fills the map of uses. */
  class FindUsedConsts {
    var usage: Usage

    constructor ()
      ensures usage == map[]
    {
      usage := map[];
    }

    method Visit(e: Expr)
      modifies this
      ensures forall id :: Count(usage, id) == old(Count(usage, id)) + Occurrences(id, e)
      ensures forall id :: id in usage <==> old(id in usage) || Occurrences(id, e) > 0
      decreases Size(e), 0
    {
      if e.ConstRef? {
        usage := usage[e.id := Count(usage, e.id) + 1];
      } else {
        VisitAll(Kids(e));
      }
    }

    method VisitAll(es: seq<Expr>)
      modifies this
      ensures forall id :: Count(usage, id) == old(Count(usage, id)) + OccurrencesAll(id, es)
      ensures forall id :: id in usage <==> old(id in usage) || OccurrencesAll(id, es) > 0
      decreases SizeAll(es), 1
    {
      if es != [] {
        Visit(es[0]);
        VisitAll(es[1..]);
      }
    }
  }

  // ----- What may go -----

  /** Nothing inside declares a constant or calls an action. */
  ghost predicate IsQuiet(p: Program, e: Expr) {
    forall x | x in Nodes(e) :: IsQuietNode(p, x)
  }

  predicate IsQuietNode(p: Program, x: Expr) {
    && !x.Assign? && !x.UnionGet? && !(x.CallDyn? && x.act)
    && !(x.Call? && x.func < |p.funcs| && p.funcs[x.func].isAction)
  }

  /** Literals, and calls of pure functions without a body on them. */
  ghost predicate IsCheap(p: Program, e: Expr) {
    forall x | x in Nodes(e) :: IsCheapNode(p, x)
  }

  predicate IsCheapNode(p: Program, x: Expr) {
    match x
    case LitBool(_) => true
    case LitInt(_) => true
    case LitFunc(_) => true
    case Call(f, _) => f < |p.funcs| && !p.funcs[f].isAction && !p.IsUser(f)
    case _ => false
  }

  /** A constant with this initialiser is used at most once, or costs nothing to compute again, and computing
      it elsewhere changes nothing. */
  ghost predicate MayGo(p: Program, usage: Usage, id: ConstId, init: Expr) {
    && IsQuiet(p, init)
    && (id !in usage || usage[id] == 1 || init.ConstRef? || IsCheap(p, init))
  }

  lemma MayGoIff(p: Program, usage: Usage, id: ConstId, init: Expr)
    ensures ShouldBeEliminated(p, usage, id, init) <==> MayGo(p, usage, id, init)
  {
    QuietIff(p, init);
    CheapIff(p, init);
    hide HasSideEffect, IsCheapIntrinsic, IsQuiet, IsCheap;
  }

  lemma {:induction false} QuietIff(p: Program, e: Expr)
    ensures !HasSideEffect(p, e) <==> IsQuiet(p, e)
    decreases Size(e), 0
  {
    hide Declares, DeclaresAny, NodesAll, ActsInAny;
    SelfCallKept.DeclaresByKids(e);
    AllQuietIff(p, Kids(e));
    assert Nodes(e) == {e} + NodesAll(Kids(e)) && e in Nodes(e);
    assert IsQuiet(p, e) <==> IsQuietNode(p, e) && forall x | x in NodesAll(Kids(e)) :: IsQuietNode(p, x);
  }

  lemma {:induction false} AllQuietIff(p: Program, es: seq<Expr>)
    ensures !DeclaresAny(es) && !ActsInAny(p, es, false) <==> forall x | x in NodesAll(es) :: IsQuietNode(p, x)
    decreases SizeAll(es), 1
  {
    hide IsQuietNode;
    if es != [] {
      QuietIff(p, es[0]);
      AllQuietIff(p, es[1..]);
    }
  }

  lemma {:induction false} CheapIff(p: Program, e: Expr)
    ensures IsCheapIntrinsic(p, e) <==> IsCheap(p, e)
    decreases Size(e), 0
  {
    AllCheapIff(p, Kids(e));
    assert Nodes(e) == {e} + NodesAll(Kids(e)) && e in Nodes(e);
    assert IsCheap(p, e) <==> IsCheapNode(p, e) && AllCheap(p, Kids(e));
    if IsLiteral(e) { assert Kids(e) == []; }
  }

  lemma {:induction false} AllCheapIff(p: Program, es: seq<Expr>)
    ensures AllCheap(p, es) <==> forall x | x in NodesAll(es) :: IsCheapNode(p, x)
    decreases SizeAll(es), 1
  {
    hide IsCheapNode;
    if es != [] {
      CheapIff(p, es[0]);
      AllCheapIff(p, es[1..]);
    }
  }

  // ----- What goes -----

  type Offer = (ConstId, Expr)

  /** The constants assigned by elements of groups that are not the last one, with their initialisers. */
  function Offered(e: Expr): set<Offer>
    decreases Size(e), 0
  {
    if e.Group? then OfferedGroup(e.exprs) else OfferedAll(Kids(e))
  }

  function OfferedAll(es: seq<Expr>): set<Offer>
    decreases SizeAll(es), 1
  {
    if es == [] then {} else Offered(es[0]) + OfferedAll(es[1..])
  }

  function OfferedGroup(es: seq<Expr>): set<Offer>
    decreases SizeAll(es), 1
  {
    if es == [] then {} else OfferedElement(es[0], |es| == 1) + Offered(es[0]) + OfferedGroup(es[1..])
  }

  function OfferedElement(e: Expr, last: bool): set<Offer> {
    if e.Assign? && !last then {(e.id, e.init)} else {}
  }

  /** Exactly the offers that may go are replaced. */
  ghost predicate IsChosen(p: Program, usage: Usage, m: Replacement, os: set<Offer>) {
    forall o | o in os :: o.0 in m <==> MayGo(p, usage, o.0, Subst(m, o.1))
  }

  /** With m the replacements of the finished pass, a constant that is offered is replaced exactly when its
      initialiser, after the replacements, may go. */
  lemma {:induction false} PassChooses(
    p: Program, usage: Usage, s: State, e: Expr, known: set<ConstId>, m: Replacement)
    requires Single(e) && Assigned(e) !! known && s.replace.Keys + ToSet(s.consts.Inputs()) <= known && Scoped(known, e)
    requires Final(m, Rewritten(p, usage, s, e).1, known + Assigned(e))
    ensures IsChosen(p, usage, m, Offered(e))
    decreases Size(e), 0
  {
    match e
    case Group(es) => PassChoosesGroup(p, usage, s, es, known, m);
    case ConstRef(id) => hide Assigned, Single;
    case _ =>
      NodeUnfold(p, usage, s, e, known, m);
      hide Erase, Final, Single, Scoped, Assigned, Rewritten, RewrittenAll, IsChosen;
      PassAddsAll(p, usage, s, Kids(e));
      var s1 := RewrittenAll(p, usage, s, Kids(e)).1;
      FinalKids(e, s, s1, known, m);
      PassChoosesAll(p, usage, s, Kids(e), known, m);
  }

  lemma {:induction false} PassChoosesAll(
    p: Program, usage: Usage, s: State, es: seq<Expr>, known: set<ConstId>, m: Replacement)
    requires SingleAll(es) && AssignedAll(es) !! known && s.replace.Keys + ToSet(s.consts.Inputs()) <= known && ScopedAll(known, es)
    requires Final(m, RewrittenAll(p, usage, s, es).1, known + AssignedAll(es))
    ensures IsChosen(p, usage, m, OfferedAll(es))
    decreases SizeAll(es), 1
  {
    hide MayGo, Subst;
    if es != [] {
      var s1 := Rewritten(p, usage, s, es[0]).1;
      PassAdds(p, usage, s, es[0]);
      PassAddsAll(p, usage, s1, es[1..]);
      PassChooses(p, usage, s, es[0], known, m);
      PassChoosesAll(p, usage, s1, es[1..], known + Assigned(es[0]), m);
    }
  }

  lemma {:induction false} PassChoosesGroup(
    p: Program, usage: Usage, s: State, es: seq<Expr>, known: set<ConstId>, m: Replacement)
    requires SingleAll(es) && AssignedAll(es) !! known && s.replace.Keys + ToSet(s.consts.Inputs()) <= known && ScopedAll(known, es)
    requires Final(m, RewrittenGroup(p, usage, s, es).1, known + AssignedAll(es))
    ensures IsChosen(p, usage, m, OfferedGroup(es))
    decreases SizeAll(es), 2
  {
    hide MayGo, Subst;
    if es != [] {
      var last := |es| == 1;
      var s1 := RewrittenElement(p, usage, s, es[0], last).1;
      PassAddsElement(p, usage, s, es[0], last);
      PassAddsGroup(p, usage, s1, es[1..]);
      PassChoosesElement(p, usage, s, es[0], last, known, m);
      PassChoosesGroup(p, usage, s1, es[1..], known + Assigned(es[0]), m);
    }
  }

  lemma {:induction false} PassChoosesElement(
    p: Program, usage: Usage, s: State, e: Expr, last: bool, known: set<ConstId>, m: Replacement)
    requires Single(e) && Assigned(e) !! known && s.replace.Keys + ToSet(s.consts.Inputs()) <= known && Scoped(known, e)
    requires Final(m, RewrittenElement(p, usage, s, e, last).1, known + Assigned(e))
    ensures IsChosen(p, usage, m, OfferedElement(e, last)) && IsChosen(p, usage, m, Offered(e))
    decreases Size(e), 1
  {
    hide OwnAssigned, ActsIn, HasSideEffect, MayGo, ShouldBeEliminated;
    if e.Assign? {
      OneKid(e);
      assert Kids(e) == [e.init] && [e.init][1..] == [];
      var (init, s1) := Rewritten(p, usage, s, e.init);
      PassAdds(p, usage, s, e.init);
      PassIsSubst(p, usage, s, e.init, known, m);
      PassChooses(p, usage, s, e.init, known, m);
      MayGoIff(p, usage, e.id, init);
      assert Offered(e) == Offered(e.init) + OfferedAll([]);
    } else {
      PassChooses(p, usage, s, e, known, m);
    }
  }

  /** The choice of the whole pass over a function. */
  lemma FunctionChooses(p: Program, usages: seq<Usage>, f: FuncId)
    requires p.IsUser(f) && f < |usages|
    requires var body, inputs := p.funcs[f].kind.body, ToSet(p.funcs[f].kind.consts.Inputs());
             Single(body) && Assigned(body) !! inputs && Scoped(inputs, body)
    ensures IsChosen(p, usages[f], Pass(p, usages, f).1.replace, Offered(p.funcs[f].kind.body))
    ensures forall id | id in Pass(p, usages, f).1.replace :: exists init :: (id, init) in Offered(p.funcs[f].kind.body)
  {
    var body, inputs := p.funcs[f].kind.body, ToSet(p.funcs[f].kind.consts.Inputs());
    var s := Start(p, f);
    PassAdds(p, usages[f], s, body);
    hide Rewritten, IsChosen;
    PassChooses(p, usages[f], s, body, inputs, Pass(p, usages, f).1.replace);
    OnlyOffers(p, usages[f], s, body);
  }

  /** Nothing is replaced that was not offered. */
  ghost predicate AddsOffers(s: State, s1: State, os: set<Offer>) {
    forall id | id in s1.replace && id !in s.replace :: exists init :: (id, init) in os
  }

  lemma {:induction false} OnlyOffers(p: Program, usage: Usage, s: State, e: Expr)
    ensures AddsOffers(s, Rewritten(p, usage, s, e).1, Offered(e))
    decreases Size(e), 0
  {
    match e
    case Group(es) => OnlyOffersGroup(p, usage, s, es);
    case ConstRef(_) =>
    case _ => OnlyOffersAll(p, usage, s, Kids(e));
  }

  lemma {:induction false} OnlyOffersAll(p: Program, usage: Usage, s: State, es: seq<Expr>)
    ensures AddsOffers(s, RewrittenAll(p, usage, s, es).1, OfferedAll(es))
    decreases SizeAll(es), 1
  {
    if es != [] {
      OnlyOffers(p, usage, s, es[0]);
      OnlyOffersAll(p, usage, Rewritten(p, usage, s, es[0]).1, es[1..]);
      OffersJoin(s, Rewritten(p, usage, s, es[0]).1, RewrittenAll(p, usage, s, es).1, Offered(es[0]), OfferedAll(es[1..]));
    }
  }

  lemma OffersJoin(s: State, s1: State, s2: State, a: set<Offer>, b: set<Offer>)
    requires AddsOffers(s, s1, a) && AddsOffers(s1, s2, b)
    ensures AddsOffers(s, s2, a + b)
  {
    forall id | id in s2.replace && id !in s.replace ensures exists init :: (id, init) in a + b {
      if id in s1.replace {
        var init :| (id, init) in a;
        assert (id, init) in a + b;
      } else {
        var init :| (id, init) in b;
        assert (id, init) in a + b;
      }
    }
  }

  lemma {:induction false} OnlyOffersGroup(p: Program, usage: Usage, s: State, es: seq<Expr>)
    ensures AddsOffers(s, RewrittenGroup(p, usage, s, es).1, OfferedGroup(es))
    decreases SizeAll(es), 2
  {
    if es != [] {
      var s1 := RewrittenElement(p, usage, s, es[0], |es| == 1).1;
      OnlyOffersElement(p, usage, s, es[0], |es| == 1);
      OnlyOffersGroup(p, usage, s1, es[1..]);
      OffersJoin(s, s1, RewrittenGroup(p, usage, s, es).1, OfferedElement(es[0], |es| == 1) + Offered(es[0]), OfferedGroup(es[1..]));
    }
  }

  lemma {:induction false} OnlyOffersElement(p: Program, usage: Usage, s: State, e: Expr, last: bool)
    ensures AddsOffers(s, RewrittenElement(p, usage, s, e, last).1, OfferedElement(e, last) + Offered(e))
    decreases Size(e), 1
  {
    if e.Assign? {
      OnlyOffers(p, usage, s, e.init);
      assert Kids(e) == [e.init] && [e.init][1..] == [];
      assert Offered(e) == Offered(e.init) + OfferedAll([]);
      var s1, s2 := Rewritten(p, usage, s, e.init).1, RewrittenElement(p, usage, s, e, last).1;
      assert AddsOffers(s1, s2, OfferedElement(e, last)) by { assert !last ==> (e.id, e.init) in OfferedElement(e, last); }
      OffersJoin(s, s1, s2, Offered(e.init), OfferedElement(e, last));
      assert OfferedElement(e, last) + Offered(e) == Offered(e.init) + OfferedElement(e, last);
    } else {
      OnlyOffers(p, usage, s, e);
    }
  }
}
