/** Walking over expression trees: children in the order in which the visitors and rewriters of the
    compiler reach them, and the constants an expression assigns and uses. */
module Trees {
  import opened Lang

  function Size(e: Expr): (n: nat)
    ensures n > 0
  {
    match e
    case Assign(_, init) => 1 + Size(init)
    case Group(es) => 1 + SizeAll(es)
    case Switch(cs, bs) => 1 + SizeAll(cs) + SizeAll(bs)
    case Call(_, args) => 1 + SizeAll(args)
    case CallDyn(tgt, args, _) => 1 + Size(tgt) + SizeAll(args)
    case CallSelf(args) => 1 + SizeAll(args)
    case Closure(_, args) => 1 + SizeAll(args)
    case Field(_, lhs, _) => 1 + Size(lhs)
    case UnionCheck(_, lhs, _) => 1 + Size(lhs)
    case UnionGet(_, lhs, _, _) => 1 + Size(lhs)
    case _ => 1
  }

  function SizeAll(es: seq<Expr>): nat {
    if es == [] then 0 else Size(es[0]) + SizeAll(es[1..])
  }

  lemma SizeAllCat(a: seq<Expr>, b: seq<Expr>)
    ensures SizeAll(a + b) == SizeAll(a) + SizeAll(b)
  {
    if a == [] {
      assert a + b == b;
    } else {
      assert (a + b)[1..] == a[1..] + b;
      SizeAllCat(a[1..], b);
    }
  }

  /** The children of a node, in traversal order. */
  function Kids(e: Expr): (r: seq<Expr>)
    ensures SizeAll(r) < Size(e)
  {
    match e
    case Assign(_, init) => [init]
    case Group(es) => es
    case Switch(cs, bs) => SizeAllCat(cs, bs); cs + bs
    case Call(_, args) => args
    case CallDyn(tgt, args, _) => SizeAllCat([tgt], args); [tgt] + args
    case CallSelf(args) => args
    case Closure(_, args) => args
    case Field(_, lhs, _) => [lhs]
    case UnionCheck(_, lhs, _) => [lhs]
    case UnionGet(_, lhs, _, _) => [lhs]
    case _ => []
  }

  /** The same node with other children. */
  function WithKids(e: Expr, ks: seq<Expr>): Expr
    requires |ks| == |Kids(e)|
  {
    match e
    case Assign(id, _) => Assign(id, ks[0])
    case Group(_) => Group(ks)
    case Switch(cs, bs) => Switch(ks[..|cs|], ks[|cs|..])
    case Call(f, _) => Call(f, ks)
    case CallDyn(_, _, act) => CallDyn(ks[0], ks[1..], act)
    case CallSelf(_) => CallSelf(ks)
    case Closure(f, _) => Closure(f, ks)
    case Field(s, _, index) => Field(s, ks[0], index)
    case UnionCheck(u, _, t) => UnionCheck(u, ks[0], t)
    case UnionGet(u, _, t, id) => UnionGet(u, ks[0], t, id)
    case _ => e
  }

  lemma KidsOfWithKids(e: Expr, ks: seq<Expr>)
    requires |ks| == |Kids(e)|
    ensures Kids(WithKids(e, ks)) == ks && OwnAssigned(WithKids(e, ks)) == OwnAssigned(e)
    ensures WithKids(e, ks).ConstRef? == e.ConstRef?
  {}

  /** A group with one element left is that element. */
  function Regroup(es: seq<Expr>): Expr {
    if |es| == 1 then es[0] else Group(es)
  }

  function ToSet(ids: seq<ConstId>): set<ConstId> {
    set id | id in ids
  }

  /** The constants assigned by a node itself. */
  function OwnAssigned(e: Expr): set<ConstId> {
    match e
    case Assign(id, _) => {id}
    case UnionGet(_, _, _, id) => {id}
    case _ => {}
  }

  /** All constants assigned in e. */
  function Assigned(e: Expr): set<ConstId>
    decreases Size(e), 0
  {
    OwnAssigned(e) + AssignedAll(Kids(e))
  }

  function AssignedAll(es: seq<Expr>): set<ConstId>
    decreases SizeAll(es), 1
  {
    if es == [] then {} else Assigned(es[0]) + AssignedAll(es[1..])
  }

  /** No constant is assigned at two places. */
  predicate Single(e: Expr)
    decreases Size(e), 0
  {
    OwnAssigned(e) !! AssignedAll(Kids(e)) && SingleAll(Kids(e))
  }

  predicate SingleAll(es: seq<Expr>)
    decreases SizeAll(es), 1
  {
    es == [] || (Single(es[0]) && SingleAll(es[1..]) && Assigned(es[0]) !! AssignedAll(es[1..]))
  }

  /** All constants read in e. */
  function Uses(e: Expr): set<ConstId>
    decreases Size(e), 0
  {
    (if e.ConstRef? then {e.id} else {}) + UsesAll(Kids(e))
  }

  function UsesAll(es: seq<Expr>): set<ConstId>
    decreases SizeAll(es), 1
  {
    if es == [] then {} else Uses(es[0]) + UsesAll(es[1..])
  }

  /** In traversal order every use comes after the assignment of the constant, or the constant is one
      of `known`. */
  predicate Scoped(known: set<ConstId>, e: Expr)
    decreases Size(e), 0
  {
    (e.ConstRef? ==> e.id in known) && ScopedAll(known, Kids(e))
  }

  predicate ScopedAll(known: set<ConstId>, es: seq<Expr>)
    decreases SizeAll(es), 1
  {
    es == [] || (Scoped(known, es[0]) && ScopedAll(known + Assigned(es[0]), es[1..]))
  }

  lemma AssignedAllCat(a: seq<Expr>, b: seq<Expr>)
    ensures AssignedAll(a + b) == AssignedAll(a) + AssignedAll(b)
    decreases a
  {
    if a == [] {
      assert a + b == b;
    } else {
      assert (a + b)[1..] == a[1..] + b;
      AssignedAllCat(a[1..], b);
    }
  }

  lemma SingleAllCat(a: seq<Expr>, b: seq<Expr>)
    ensures SingleAll(a + b) <==> SingleAll(a) && SingleAll(b) && AssignedAll(a) !! AssignedAll(b)
    decreases a
  {
    if a == [] {
      assert a + b == b;
    } else {
      assert (a + b)[1..] == a[1..] + b;
      SingleAllCat(a[1..], b);
      AssignedAllCat(a[1..], b);
    }
  }

  lemma AssignedAt(es: seq<Expr>, i: nat)
    requires i < |es|
    ensures Assigned(es[i]) <= AssignedAll(es) && (SingleAll(es) ==> Single(es[i]))
    decreases es
  {
    if i > 0 { AssignedAt(es[1..], i - 1); }
  }

  /** e and everything inside it. */
  function Nodes(e: Expr): set<Expr>
    decreases Size(e), 0
  {
    {e} + NodesAll(Kids(e))
  }

  function NodesAll(es: seq<Expr>): set<Expr>
    decreases SizeAll(es), 1
  {
    if es == [] then {} else Nodes(es[0]) + NodesAll(es[1..])
  }
}
