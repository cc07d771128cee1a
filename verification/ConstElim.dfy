/** Const elimination: constants that are assigned in a group and used at most once, or are cheap, are
    removed and their uses replaced by the expression that was assigned. */
module ConstElim {
  import opened Lang
  import opened Trees
  import opened Purity
  import opened Effects

  // ----- The table of constants -----

  function Remove(ids: seq<ConstId>, id: ConstId): (r: seq<ConstId>)
    ensures forall x :: x in r <==> x in ids && x != id
    ensures id !in ids ==> r == ids
  {
    if ids == [] then []
    else if ids[0] == id then Remove(ids[1..], id)
    else [ids[0]] + Remove(ids[1..], id)
  }

  /** One more than the highest identifier. */
  function Above(ids: seq<ConstId>): (r: nat)
    ensures forall x | x in ids :: x < r
  {
    if ids == [] then 0
    else
      assert ids == [ids[0]] + ids[1..];
      var r := Above(ids[1..]);
      if ids[0] < r then r else ids[0] + 1
  }

  /** Erasing the highest constant lowers the counter for new ones. */
  function Erase(t: ConstTable, id: ConstId): ConstTable {
    if !t.Has(id) then t
    else
      var r := ConstTable(Remove(t.inputs, id), Remove(t.bound, id), Remove(t.locals, id), t.highest);
      if id + 1 == t.highest then r.(highest := Above(r.All())) else r
  }

  // ----- Which constants go -----

  /** As the optimizer decides it; a call of the function itself does not count as a side effect. */
  predicate HasSideEffect(p: Program, e: Expr) {
    Declares(e) || ActsIn(p, e, false)
  }

  predicate IsLiteral(e: Expr) {
    e.LitBool? || e.LitInt? || e.LitFunc?
  }

  predicate IsCheapIntrinsic(p: Program, e: Expr)
    decreases Size(e), 0
  {
    || IsLiteral(e)
    || (e.Call? && AllCheap(p, Kids(e)) && e.func < |p.funcs| && !p.funcs[e.func].isAction && !p.IsUser(e.func))
  }

  predicate AllCheap(p: Program, es: seq<Expr>)
    decreases SizeAll(es), 1
  {
    es == [] || (IsCheapIntrinsic(p, es[0]) && AllCheap(p, es[1..]))
  }

  predicate ShouldBeEliminated(p: Program, usage: map<ConstId, nat>, id: ConstId, init: Expr) {
    && !HasSideEffect(p, init)
    && (id !in usage || usage[id] == 1 || init.ConstRef? || IsCheapIntrinsic(p, init))
  }

  // ----- The pass, as a function of its state -----

  datatype State = State(replace: map<ConstId, Expr>, consts: ConstTable, modified: bool)
  {
    function Eliminate(id: ConstId, init: Expr): State {
      State(replace[id := init], Erase(consts, id), true)
    }
  }

  function Rewritten(p: Program, usage: map<ConstId, nat>, s: State, e: Expr): (Expr, State)
    decreases Size(e), 0
  {
    match e
    case Group(es) => var (ks, s1) := RewrittenGroup(p, usage, s, es); (Regroup(ks), s1)
    case ConstRef(id) => (if id in s.replace then s.replace[id] else e, s)
    case _ => var (ks, s1) := RewrittenAll(p, usage, s, Kids(e)); (WithKids(e, ks), s1)
  }

  function RewrittenAll(p: Program, usage: map<ConstId, nat>, s: State, es: seq<Expr>): (r: (seq<Expr>, State))
    ensures |r.0| == |es|
    decreases SizeAll(es), 1
  {
    if es == [] then ([], s)
    else
      var (k, s1) := Rewritten(p, usage, s, es[0]);
      var (ks, s2) := RewrittenAll(p, usage, s1, es[1..]);
      ([k] + ks, s2)
  }

  function RewrittenGroup(p: Program, usage: map<ConstId, nat>, s: State, es: seq<Expr>): (seq<Expr>, State)
    decreases SizeAll(es), 2
  {
    if es == [] then ([], s)
    else
      var (k, s1) := RewrittenElement(p, usage, s, es[0], |es| == 1);
      var (ks, s2) := RewrittenGroup(p, usage, s1, es[1..]);
      (k + ks, s2)
  }

  /** What is left of one element of a group. */
  function RewrittenElement(p: Program, usage: map<ConstId, nat>, s: State, e: Expr, last: bool)
    : (seq<Expr>, State)
    decreases Size(e), 1
  {
    if e.Assign? then
      var (init, s1) := Rewritten(p, usage, s, e.init);
      if !last && ShouldBeEliminated(p, usage, e.id, init) then ([], s1.Eliminate(e.id, init))
      else ([Assign(e.id, init)], s1)
    else
      var (k, s1) := Rewritten(p, usage, s, e);
      ([k], s1)
  }

  // ----- The pass as a rewriter -----

  class ConstEliminatorRewriter {
    const prog: Program
    const usage: map<ConstId, nat>
    var replaceMap: map<ConstId, Expr>
    var consts: ConstTable
    var modified: bool

    constructor (prog: Program, usage: map<ConstId, nat>, consts: ConstTable)
      ensures this.prog == prog && this.usage == usage && Now() == State(map[], consts, false)
    {
      this.prog, this.usage, this.consts := prog, usage, consts;
      replaceMap, modified := map[], false;
    }

    ghost function Now(): State
      reads this
    {
      State(replaceMap, consts, modified)
    }

    method Rewrite(e: Expr) returns (r: Expr)
      modifies this
      ensures (r, Now()) == old(Rewritten(prog, usage, Now(), e))
      decreases Size(e), 0
    {
      match e
      case Group(es) =>
        var newNodes := RewriteGroup(es);
        r := if |newNodes| == 1 then newNodes[0] else Group(newNodes);
      case ConstRef(id) => r := if id in replaceMap then replaceMap[id] else e;
      case _ =>
        var ks := RewriteKids(Kids(e));
        r := WithKids(e, ks);
    }

    method RewriteKids(es: seq<Expr>) returns (r: seq<Expr>)
      modifies this
      ensures (r, Now()) == old(RewrittenAll(prog, usage, Now(), es))
      decreases SizeAll(es), 1
    {
      r := [];
      ghost var total := RewrittenAll(prog, usage, Now(), es);
      assert es[0..] == es && [] + total.0 == total.0;
      for i := 0 to |es|
        invariant var (ks, s) := RewrittenAll(prog, usage, Now(), es[i..]); total == (r + ks, s)
      {
        SizeAt(es, i);
        ghost var next := RewrittenAll(prog, usage, Now(), es[i..]);
        assert es[i..][0] == es[i] && es[i..][1..] == es[i + 1..];
        var k := Rewrite(es[i]);
        ghost var rest := RewrittenAll(prog, usage, Now(), es[i + 1..]);
        assert next == ([k] + rest.0, rest.1);
        assert r + ([k] + rest.0) == r + [k] + rest.0;
        r := r + [k];
      }
      assert RewrittenAll(prog, usage, Now(), es[|es|..]) == ([], Now());
      assert r + [] == r;
    }

    method RewriteGroup(es: seq<Expr>) returns (newNodes: seq<Expr>)
      modifies this
      ensures (newNodes, Now()) == old(RewrittenGroup(prog, usage, Now(), es))
      decreases SizeAll(es), 2
    {
      newNodes := [];
      ghost var total := RewrittenGroup(prog, usage, Now(), es);
      assert es[0..] == es && [] + total.0 == total.0;
      for i := 0 to |es|
        invariant var (ks, s) := RewrittenGroup(prog, usage, Now(), es[i..]); total == (newNodes + ks, s)
      {
        SizeAt(es, i);
        assert es[i..][0] == es[i] && es[i..][1..] == es[i + 1..];
        ghost var before := newNodes;
        var added := RewriteElement(es[i], i == |es| - 1);
        newNodes := newNodes + added;
        ghost var rest := RewrittenGroup(prog, usage, Now(), es[i + 1..]);
        assert before + (added + rest.0) == newNodes + rest.0;
      }
      assert RewrittenGroup(prog, usage, Now(), es[|es|..]) == ([], Now());
      assert newNodes + [] == newNodes;
    }

    /** One element of a group; nothing is left of an assignment that is eliminated. */
    method RewriteElement(e: Expr, last: bool) returns (added: seq<Expr>)
      modifies this
      ensures (added, Now()) == old(RewrittenElement(prog, usage, Now(), e, last))
      decreases Size(e), 1
    {
      if e.Assign? {
        var init := Rewrite(e.init);
        if !last && ShouldBeEliminated(prog, usage, e.id, init) {
          Eliminate(e.id, init);
          return [];
        }
        return [Assign(e.id, init)];
      }
      var k := Rewrite(e);
      added := [k];
    }

    method Eliminate(id: ConstId, init: Expr)
      modifies this
      ensures Now() == old(Now()).Eliminate(id, init)
    {
      consts := Erase(consts, id);
      replaceMap := replaceMap[id := init];
      modified := true;
    }
  }
}
