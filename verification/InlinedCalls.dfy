/** Which calls are inlined: all calls of small functions that may be, and no others. */
module InlinedCalls {
  import opened Lang
  import opened Trees
  import opened CallGraph
  import opened Inlining

  /** A call of another function that has at most 50 nodes, is not recursive and not marked. */
  ghost predicate IsSmallCall(p: Program, noInline: set<FuncId>, self: FuncId, e: Expr) {
    && e.Call? && p.IsUser(e.func) && !Stays(p, noInline, self, e.func)
    && |e.args| == |p.funcs[e.func].kind.consts.Inputs()|
  }

  /** Calls of this function are never inlined. */
  ghost predicate Stays(p: Program, noInline: set<FuncId>, self: FuncId, f: FuncId) {
    || f == self || f in noInline
    || (p.IsUser(f) ==> IsRecursive(p, f) || Size(p.funcs[f].kind.body) > 50)
  }

  ghost predicate NoSmallCall(p: Program, noInline: set<FuncId>, self: FuncId, e: Expr)
    decreases Size(e), 0
  {
    !IsSmallCall(p, noInline, self, e) && NoSmallCalls(p, noInline, self, Kids(e))
  }

  ghost predicate NoSmallCalls(p: Program, noInline: set<FuncId>, self: FuncId, es: seq<Expr>)
    decreases SizeAll(es), 1
  {
    es == [] || (NoSmallCall(p, noInline, self, es[0]) && NoSmallCalls(p, noInline, self, es[1..]))
  }

  /** How often e calls f. */
  function Calls(f: FuncId, e: Expr): nat
    decreases Size(e), 0
  {
    (if e.Call? && e.func == f then 1 else 0) + CallsAll(f, Kids(e))
  }

  function CallsAll(f: FuncId, es: seq<Expr>): nat
    decreases SizeAll(es), 1
  {
    if es == [] then 0 else Calls(f, es[0]) + CallsAll(f, es[1..])
  }

  /** How often f is called in e and, for every small call in it, in the body of the function called. */
  ghost function CallsMet(p: Program, noInline: set<FuncId>, self: FuncId, f: FuncId, e: Expr): nat
    decreases Called(p, e), Size(e), 0
  {
    CalledKids(p, e);
    (if e.Call? && e.func == f then 1 else 0) + CallsMetAll(p, noInline, self, f, Kids(e))
    + if IsSmallCall(p, noInline, self, e) then
        BodyCallsFewer(p, e);
        CallsMet(p, noInline, self, f, p.funcs[e.func].kind.body)
      else 0
  }

  ghost function CallsMetAll(p: Program, noInline: set<FuncId>, self: FuncId, f: FuncId, es: seq<Expr>): nat
    decreases CalledAll(p, es), SizeAll(es), 1
  {
    if es == [] then 0
    else
      CalledParts(p, es);
      CallsMet(p, noInline, self, f, es[0]) + CallsMetAll(p, noInline, self, f, es[1..])
  }

  // ----- Every small call goes -----

  lemma {:induction false} SmallCallsGo(p: Program, noInline: set<FuncId>, self: FuncId, s: ConstTable, e: Expr)
    ensures NoSmallCall(p, noInline, self, Inlined(p, noInline, self, s, e).0)
    decreases Called(p, e), Size(e), 0
  {
    CalledKids(p, e);
    if Inlinable(p, noInline, self, e) {
      var tgt, body := p.funcs[e.func].kind.consts, p.funcs[e.func].kind.body;
      BodyCallsFewer(p, e);
      var t := Renaming(tgt.All(), s.highest);
      CalledRemapped(p, t, body);
      var (args, s1) := InlinedAll(p, noInline, self, Registered(s, |tgt.All()|), e.args);
      var (last, s2) := Inlined(p, noInline, self, s1, Remapped(t, body));
      SmallCallsGoAll(p, noInline, self, Registered(s, |tgt.All()|), e.args);
      SmallCallsGo(p, noInline, self, s1, Remapped(t, body));
      hide Inlined, InlinedAll, Inlinable, IsSmallCall;
      InlinedHasNone(p, noInline, self, NewNames(t, tgt.Inputs()), args, last);
    } else {
      var (ks, s1) := InlinedAll(p, noInline, self, s, Kids(e));
      SmallCallsGoAll(p, noInline, self, s, Kids(e));
      KidsOfWithKids(e, ks);
    }
  }

  lemma {:induction false} SmallCallsGoAll(p: Program, noInline: set<FuncId>, self: FuncId, s: ConstTable, es: seq<Expr>)
    ensures NoSmallCalls(p, noInline, self, InlinedAll(p, noInline, self, s, es).0)
    decreases CalledAll(p, es), SizeAll(es), 1
  {
    if es != [] {
      CalledParts(p, es);
      var (k, s1) := Inlined(p, noInline, self, s, es[0]);
      var (ks, s2) := InlinedAll(p, noInline, self, s1, es[1..]);
      SmallCallsGo(p, noInline, self, s, es[0]);
      SmallCallsGoAll(p, noInline, self, s1, es[1..]);
      assert ([k] + ks)[1..] == ks;
    }
  }

  lemma InlinedHasNone(p: Program, noInline: set<FuncId>, self: FuncId, ids: seq<ConstId>, args: seq<Expr>, last: Expr)
    requires |ids| == |args|
    requires NoSmallCalls(p, noInline, self, args) && NoSmallCall(p, noInline, self, last)
    ensures NoSmallCall(p, noInline, self, Regroup(Assigns(ids, args) + [last]))
  {
    AssignsHaveNone(p, noInline, self, ids, args, last);
  }

  lemma {:induction false} AssignsHaveNone(
    p: Program, noInline: set<FuncId>, self: FuncId, ids: seq<ConstId>, args: seq<Expr>, last: Expr)
    requires |ids| == |args|
    requires NoSmallCalls(p, noInline, self, args) && NoSmallCall(p, noInline, self, last)
    ensures NoSmallCalls(p, noInline, self, Assigns(ids, args) + [last])
    decreases |args|
  {
    var es := Assigns(ids, args) + [last];
    if args == [] {
      assert es == [last] && es[1..] == [];
    } else {
      AssignsHaveNone(p, noInline, self, ids[1..], args[1..], last);
      assert es[1..] == Assigns(ids[1..], args[1..]) + [last];
      var a := Assign(ids[0], args[0]);
      assert es[0] == a && Kids(a) == [args[0]] && [args[0]][1..] == [];
      assert NoSmallCalls(p, noInline, self, [args[0]]);
    }
  }

  // ----- Every other call stays -----

  /** Calls of a function that is never inlined are those of e and of the bodies that replace calls. */
  lemma {:induction false} OtherCallsStay(
    p: Program, noInline: set<FuncId>, self: FuncId, f: FuncId, s: ConstTable, e: Expr)
    requires Stays(p, noInline, self, f)
    ensures Calls(f, Inlined(p, noInline, self, s, e).0) == CallsMet(p, noInline, self, f, e)
    decreases Called(p, e), Size(e), 0
  {
    CalledKids(p, e);
    if Inlinable(p, noInline, self, e) {
      var tgt, body := p.funcs[e.func].kind.consts, p.funcs[e.func].kind.body;
      BodyCallsFewer(p, e);
      var t := Renaming(tgt.All(), s.highest);
      CalledRemapped(p, t, body);
      var (args, s1) := InlinedAll(p, noInline, self, Registered(s, |tgt.All()|), e.args);
      var (last, s2) := Inlined(p, noInline, self, s1, Remapped(t, body));
      OtherCallsStayAll(p, noInline, self, f, Registered(s, |tgt.All()|), e.args);
      OtherCallsStay(p, noInline, self, f, s1, Remapped(t, body));
      RemappedMeets(p, noInline, self, f, t, body);
      assert CallsMet(p, noInline, self, f, e)
          == CallsMetAll(p, noInline, self, f, e.args) + CallsMet(p, noInline, self, f, body);
      hide Inlined, InlinedAll, Inlinable, IsSmallCall, CallsMet, CallsMetAll;
      CallsOfInlined(f, NewNames(t, tgt.Inputs()), args, last);
    } else {
      var (ks, s1) := InlinedAll(p, noInline, self, s, Kids(e));
      OtherCallsStayAll(p, noInline, self, f, s, Kids(e));
      KidsOfWithKids(e, ks);
    }
  }

  lemma {:induction false} OtherCallsStayAll(
    p: Program, noInline: set<FuncId>, self: FuncId, f: FuncId, s: ConstTable, es: seq<Expr>)
    requires Stays(p, noInline, self, f)
    ensures CallsAll(f, InlinedAll(p, noInline, self, s, es).0) == CallsMetAll(p, noInline, self, f, es)
    decreases CalledAll(p, es), SizeAll(es), 1
  {
    if es != [] {
      CalledParts(p, es);
      var (k, s1) := Inlined(p, noInline, self, s, es[0]);
      var (ks, s2) := InlinedAll(p, noInline, self, s1, es[1..]);
      OtherCallsStay(p, noInline, self, f, s, es[0]);
      OtherCallsStayAll(p, noInline, self, f, s1, es[1..]);
      assert ([k] + ks)[1..] == ks;
    }
  }

  lemma CallsOfInlined(f: FuncId, ids: seq<ConstId>, args: seq<Expr>, last: Expr)
    requires |ids| == |args|
    ensures Calls(f, Regroup(Assigns(ids, args) + [last])) == CallsAll(f, args) + Calls(f, last)
  {
    CallsOfAssigns(f, ids, args, last);
    if args == [] { assert Assigns(ids, args) + [last] == [last]; }
  }

  lemma {:induction false} CallsOfAssigns(f: FuncId, ids: seq<ConstId>, args: seq<Expr>, last: Expr)
    requires |ids| == |args|
    ensures CallsAll(f, Assigns(ids, args) + [last]) == CallsAll(f, args) + Calls(f, last)
    decreases |args|
  {
    var es := Assigns(ids, args) + [last];
    if args == [] {
      assert es == [last] && es[1..] == [];
    } else {
      CallsOfAssigns(f, ids[1..], args[1..], last);
      assert es[1..] == Assigns(ids[1..], args[1..]) + [last];
      var a := Assign(ids[0], args[0]);
      assert es[0] == a && Kids(a) == [args[0]] && [args[0]][1..] == [];
      assert CallsAll(f, [args[0]]) == Calls(f, args[0]);
    }
  }

  /** New names for constants change no call. */
  lemma {:induction false} RemappedMeets(
    p: Program, noInline: set<FuncId>, self: FuncId, f: FuncId, t: Remap, e: Expr)
    ensures CallsMet(p, noInline, self, f, Remapped(t, e)) == CallsMet(p, noInline, self, f, e)
    decreases Size(e), 0
  {
    KidsOfRemapped(t, e);
    RemappedMeetsAll(p, noInline, self, f, t, Kids(e));
    assert e.Call? ==> |Remapped(t, e).args| == |e.args|;
    hide Remapped, RemappedAll, CallsMetAll;
  }

  lemma {:induction false} RemappedMeetsAll(
    p: Program, noInline: set<FuncId>, self: FuncId, f: FuncId, t: Remap, es: seq<Expr>)
    ensures CallsMetAll(p, noInline, self, f, RemappedAll(t, es)) == CallsMetAll(p, noInline, self, f, es)
    decreases SizeAll(es), 1
  {
    if es != [] {
      RemappedMeets(p, noInline, self, f, t, es[0]);
      RemappedMeetsAll(p, noInline, self, f, t, es[1..]);
      assert RemappedAll(t, es)[1..] == RemappedAll(t, es[1..]);
    }
  }

  /** So no call of such a function is lost. */
  lemma {:induction false} NoneIsLost(p: Program, noInline: set<FuncId>, self: FuncId, f: FuncId, e: Expr)
    ensures Calls(f, e) <= CallsMet(p, noInline, self, f, e)
    decreases Size(e), 0
  {
    NoneIsLostAll(p, noInline, self, f, Kids(e));
  }

  lemma {:induction false} NoneIsLostAll(p: Program, noInline: set<FuncId>, self: FuncId, f: FuncId, es: seq<Expr>)
    ensures CallsAll(f, es) <= CallsMetAll(p, noInline, self, f, es)
    decreases SizeAll(es), 1
  {
    if es != [] {
      NoneIsLost(p, noInline, self, f, es[0]);
      NoneIsLostAll(p, noInline, self, f, es[1..]);
    }
  }
}
