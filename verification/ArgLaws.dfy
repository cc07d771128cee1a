/** Default arguments, call by call: which initialiser stands for which input, and which location is answered. */
module ArgLaws {
  import opened Lang
  import opened ArgPatching

  predicate IsLeaf(e: Node) {
    e.Other? && e.kids == []
  }

  /** Counted from the last input, an omitted argument becomes the initialiser at the same place; the supplied
      arguments stay in front. */
  lemma LastOnesAreFilled(p: seq<Callee>, f: nat, args: seq<Node>, src: Option<nat>)
    requires f < |p| && |args| <= p[f].inputs <= |args| + |p[f].inits|
    requires forall a | a in args + p[f].inits :: IsLeaf(a)
    ensures Visit(p, START, Invoke(f, args, src)).Done?
    ensures var r := Visit(p, START, Invoke(f, args, src)).val;
      && r.Invoke? && r.func == f && r.src == src && |r.args| == p[f].inputs && r.args[..|args|] == args
      && forall i | |args| <= i < p[f].inputs :: r.args[i] == p[f].inits[|p[f].inits| - (p[f].inputs - i)]
  {
    var e := Invoke(f, args, src);
    var all := Completed(p, e);
    forall a | a in all ensures IsLeaf(a) {
      assert a in args + p[f].inits;
    }
    LeavesFilled(p, e);
    assert all == args + p[f].inits[|p[f].inits| - (p[f].inputs - |args|)..];
  }

  lemma LeavesFilled(p: seq<Callee>, e: Node)
    requires e.Invoke? && !TooFew(p, e)
    requires forall a | a in Completed(p, e) :: IsLeaf(a)
    ensures Visit(p, START, e).Done? && Visit(p, START, e).val == e.(args := Completed(p, e))
  {
    hide Completed, TooFew, VisitAll, AllLocsPatched;
    var s1 := if IsRoot(p, START, e) then START.(root := e.src) else START;
    var s2 := if Omits(p, e) then s1.(depth := s1.depth + 1) else s1;
    LeavesStay(p, s2, Completed(p, e));
    NothingPatched(p, s2.root, Completed(p, e));
  }

  lemma NothingPatched(p: seq<Callee>, root: Option<nat>, es: seq<Node>)
    requires forall a | a in es :: IsLeaf(a)
    ensures AllLocsPatched(p, root, es) == es
  {
    forall i | 0 <= i < |es| ensures AllLocsPatched(p, root, es)[i] == es[i] {
      assert es[i] in es && IsLeaf(es[i]);
    }
  }

  lemma {:induction false} LeavesStay(p: seq<Callee>, st: State, es: seq<Node>)
    requires forall a | a in es :: IsLeaf(a)
    ensures VisitAll(p, st, es) == Done(es, st)
  {
    if es != [] {
      assert es[0] in es && forall a | a in es[1..] :: a in es;
      LeavesStay(p, st, es[1..]);
      assert VisitAll(p, st, []) == Done([], st);
      assert es == [es[0]] + es[1..];
    }
  }

  /** A source-location call in the initialiser of an initialiser answers the location of the outermost of the
      calls that has one. */
  lemma LocationIsOutermost(p: seq<Callee>, f: nat, g: nat, l: nat, loc: Loc,
                            fSrc: Option<nat>, gSrc: Option<nat>, lSrc: Option<nat>)
    requires f < |p| && g < |p| && l < |p| && p[l] == Callee(0, [], Some(loc))
    requires p[f] == Callee(1, [Invoke(g, [], gSrc)], None) && p[g] == Callee(1, [Invoke(l, [], lSrc)], None)
    requires fSrc.Some? || gSrc.Some?
    ensures var at := if fSrc.Some? then fSrc.value else gSrc.value;
      Visit(p, START, Invoke(f, [], fSrc)) == Done(Invoke(f, [Invoke(g, [SourceLit(loc, at)], gSrc)], fSrc), START)
  {
    hide Visit, VisitCall;
    var at := if fSrc.Some? then fSrc.value else gSrc.value;
    var s0 := State(1, fSrc, 0);
    LocStays(p, State(2, Some(at), 0), l, lSrc);
    OneOmitted(p, s0, g, Invoke(l, [], lSrc), gSrc, Invoke(l, [], lSrc));
    OneOmitted(p, START, f, Invoke(g, [], gSrc), fSrc, Invoke(g, [SourceLit(loc, at)], gSrc));
  }

  lemma LocStays(p: seq<Callee>, st: State, l: nat, src: Option<nat>)
    requires l < |p| && p[l].inputs == 0
    ensures Visit(p, st, Invoke(l, [], src)) == Done(Invoke(l, [], src), st)
  {
    assert VisitAll(p, st, []) == Done([], st) && Completed(p, Invoke(l, [], src)) == [];
    assert AllLocsPatched(p, st.root, []) == [];
  }

  /** A call that omits its only argument. */
  lemma OneOmitted(p: seq<Callee>, st: State, f: nat, init: Node, src: Option<nat>, v: Node)
    requires f < |p| && p[f] == Callee(1, [init], None) && st.depth < MAX_DEPTH
    requires var s := State(st.depth + 1, if st.root.Some? then st.root else src, st.reports);
      Visit(p, s, init) == Done(v, s)
    ensures var root := if st.root.Some? then st.root else src;
      Visit(p, st, Invoke(f, [], src)) == Done(Invoke(f, [if root.Some? then LocPatched(p, root.value, v) else v], src), st)
  {
    hide VisitAll, LocPatched;
    var root := if st.root.Some? then st.root else src;
    var e := Invoke(f, [], src);
    OneOf(p, State(st.depth + 1, root, st.reports), init);
    assert Omits(p, e) && !TooFew(p, e) && Completed(p, e) == [init];
    assert AllLocsPatched(p, root, [v]) == [if root.Some? then LocPatched(p, root.value, v) else v];
  }

  /** A call with all its arguments keeps a source-location call among them. */
  lemma SuppliedLocationStays(p: seq<Callee>, f: nat, l: nat, loc: Loc, fSrc: Option<nat>, lSrc: Option<nat>)
    requires f < |p| && l < |p| && p[f].inputs == 1 && p[l] == Callee(0, [], Some(loc))
    ensures Visit(p, START, Invoke(f, [Invoke(l, [], lSrc)], fSrc)) == Done(Invoke(f, [Invoke(l, [], lSrc)], fSrc), START)
  {
    hide VisitAll;
    var e, locCall := Invoke(f, [Invoke(l, [], lSrc)], fSrc), Invoke(l, [], lSrc);
    LocStays(p, START, l, lSrc);
    OneOf(p, START, locCall);
    assert Completed(p, e) == [locCall] && AllLocsPatched(p, None, [locCall]) == [locCall];
  }

  lemma OneOf(p: seq<Callee>, st: State, e: Node)
    requires Visit(p, st, e).Done?
    ensures VisitAll(p, st, [e]) == Done([Visit(p, st, e).val], Visit(p, st, e).st)
  {
    hide Visit, VisitCall;
    var s := Visit(p, st, e).st;
    assert [e][0] == e && [e][1..] == [] && VisitAll(p, s, []) == Done([], s);
    assert [Visit(p, st, e).val] + [] == [Visit(p, st, e).val];
  }
}
