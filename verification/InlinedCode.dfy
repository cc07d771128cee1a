/** Inlining keeps the condition under which generated code is right, so the code of an inlined program
    does what the program meant before inlining. */
module InlinedCode {
  import opened Lang
  import opened Machine
  import opened CodeGen
  import opened Trees
  import opened CallGraph
  import opened Inlining
  import opened InliningMeaning
  import opened Skipping
  import Representation
  import Generator
  import Whole = WholeProgram

  // ----- Renaming -----

  function Image(t: Remap, ids: set<ConstId>): set<ConstId> {
    set id | id in ids && id in t :: t[id]
  }

  lemma ImageUnion(t: Remap, a: set<ConstId>, b: set<ConstId>)
    ensures Image(t, a + b) == Image(t, a) + Image(t, b)
  {}

  lemma ImageDisjoint(t: Remap, a: set<ConstId>, b: set<ConstId>)
    requires Injective(t) && a !! b
    ensures Image(t, a) !! Image(t, b)
  {}

  lemma ImageOwn(t: Remap, bound: seq<ConstId>, bound2: seq<ConstId>, e: Expr)
    requires Renamable(t, e)
    ensures OwnAssigned(Remapped(t, e)) == Image(t, OwnAssigned(e))
    ensures OwnReads(bound2, Remapped(t, e)) == Image(t, OwnReads(bound, e))
  {
    assert OwnAssigned(e) <= Assigned(e);
    assert e.ConstRef? ==> e.id in Uses(e);
  }

  lemma {:induction false} AssignedImage(t: Remap, e: Expr)
    requires Renamable(t, e)
    ensures Assigned(Remapped(t, e)) == Image(t, Assigned(e))
    decreases Size(e), 0
  {
    KidsRenamable(t, e);
    AssignedAllImage(t, Kids(e));
    KidsOfRemapped(t, e);
    ImageOwn(t, [], [], e);
    ImageUnion(t, OwnAssigned(e), AssignedAll(Kids(e)));
  }

  lemma {:induction false} AssignedAllImage(t: Remap, es: seq<Expr>)
    requires RenamableAll(t, es)
    ensures AssignedAll(RemappedAll(t, es)) == Image(t, AssignedAll(es))
    decreases SizeAll(es), 1
  {
    if es != [] {
      AssignedImage(t, es[0]);
      AssignedAllImage(t, es[1..]);
      assert RemappedAll(t, es)[1..] == RemappedAll(t, es[1..]);
      ImageUnion(t, Assigned(es[0]), AssignedAll(es[1..]));
    }
  }

  lemma {:induction false} SkippingImage(p: Program, t: Remap, bound: seq<ConstId>, bound2: seq<ConstId>, e: Expr)
    requires Renamable(t, e)
    ensures SkippedDecls(p, Remapped(t, e)) == Image(t, SkippedDecls(p, e))
    ensures ReadOutside(p, bound2, Remapped(t, e)) == Image(t, ReadOutside(p, bound, e))
    decreases Size(e), 0
  {
    KidsRenamable(t, e);
    KidsOfRemapped(t, e);
    if Skips(p, e) {
      AssignedAllImage(t, Kids(e));
    } else {
      AllSkippingImage(p, t, bound, bound2, Kids(e));
      ImageOwn(t, bound, bound2, e);
      ImageUnion(t, OwnReads(bound, e), ReadOutsideAll(p, bound, Kids(e)));
    }
  }

  lemma {:induction false} AllSkippingImage(
    p: Program, t: Remap, bound: seq<ConstId>, bound2: seq<ConstId>, es: seq<Expr>)
    requires RenamableAll(t, es)
    ensures SkippedDeclsAll(p, RemappedAll(t, es)) == Image(t, SkippedDeclsAll(p, es))
    ensures ReadOutsideAll(p, bound2, RemappedAll(t, es)) == Image(t, ReadOutsideAll(p, bound, es))
    decreases SizeAll(es), 1
  {
    if es != [] {
      SkippingImage(p, t, bound, bound2, es[0]);
      AllSkippingImage(p, t, bound, bound2, es[1..]);
      assert RemappedAll(t, es)[1..] == RemappedAll(t, es[1..]);
      ImageUnion(t, SkippedDecls(p, es[0]), SkippedDeclsAll(p, es[1..]));
      ImageUnion(t, ReadOutside(p, bound, es[0]), ReadOutsideAll(p, bound, es[1..]));
    }
  }

  // ----- Inlining -----

  predicate AllPure(p: Program, fs: set<FuncId>) {
    forall f | f in fs :: p.IsUser(f) && !p.funcs[f].isAction
  }

  /** Pure functions call pure functions only. */
  predicate PureCallsPure(p: Program) {
    forall f | 0 <= f < |p.funcs| && p.IsUser(f) && !p.funcs[f].isAction :: AllPure(p, BodyCalls(p, f))
  }

  lemma BodyReachesPure(p: Program, f: FuncId)
    requires PureCallsPure(p) && p.IsUser(f) && !p.funcs[f].isAction
    ensures AllPure(p, Called(p, p.funcs[f].kind.body))
  {
    var pure := set g | g in UserFuncs(p) && !p.funcs[g].isAction;
    forall g | g in pure ensures BodyCalls(p, g) <= pure {
      CallsAreUser(p, p.funcs[g].kind.body);
    }
    CallsAreUser(p, p.funcs[f].kind.body);
    CloseIsLeast(p, BodyCalls(p, f), pure);
  }

  /** Code that reads nothing declared in an operand without code; all these constants exist. */
  predicate Apart(skipped: set<ConstId>, read: set<ConstId>, h: nat) {
    skipped !! read && Below(skipped + read, h)
  }

  /** Of the new expression: still apart, and only constants made from lo to hi are added. */
  predicate StaysApart(
    skipped: set<ConstId>, read: set<ConstId>, skipped2: set<ConstId>, read2: set<ConstId>, lo: nat, hi: nat)
  {
    skipped2 !! read2 && skipped2 <= skipped + Range(lo, hi) && read2 <= read + Range(lo, hi)
  }

  lemma ApartTwice(
    a: set<ConstId>, x: set<ConstId>, b: set<ConstId>, y: set<ConstId>,
    a2: set<ConstId>, x2: set<ConstId>, b2: set<ConstId>, y2: set<ConstId>, lo: nat, mid: nat, hi: nat)
    requires Apart(a + b, x + y, lo) && lo <= mid <= hi
    requires StaysApart(a, x, a2, x2, lo, mid) && StaysApart(b, y, b2, y2, mid, hi)
    ensures StaysApart(a + b, x + y, a2 + b2, x2 + y2, lo, hi)
  {}

  lemma ApartLater(a: set<ConstId>, x: set<ConstId>, lo: nat, mid: nat)
    requires Apart(a, x, lo) && lo <= mid
    ensures Apart(a, x, mid)
  {}

  lemma {:induction false} InlinedSkips(
    p: Program, noInline: set<FuncId>, self: FuncId, bound: seq<ConstId>, s: ConstTable, e: Expr)
    requires AllReady(p) && SkipsSafelyAnywhere(p) && AllPure(p, Called(p, e))
    requires Apart(SkippedDecls(p, e), ReadOutside(p, bound, e), s.highest)
    ensures var (k, s2) := Inlined(p, noInline, self, s, e);
            StaysApart(SkippedDecls(p, e), ReadOutside(p, bound, e), SkippedDecls(p, k), ReadOutside(p, bound, k),
                       s.highest, s2.highest)
    decreases Called(p, e), Size(e), 0
  {
    CalledKids(p, e);
    if Inlinable(p, noInline, self, e) {
      InlinedCallSkips(p, noInline, self, bound, s, e);
    } else {
      var (ks, s2) := InlinedAll(p, noInline, self, s, Kids(e));
      KidsOfWithKids(e, ks);
      if Skips(p, e) {
        InlinedAllShape(p, noInline, self, s, Kids(e));
      } else {
        hide Apart, StaysApart, Inlined, InlinedAll, Called, CalledAll, AllReady, SkipsSafelyAnywhere, AllPure;
        KidsApart(p, bound, s.highest, e);
        PureKids(p, e);
        InlinedAllSkips(p, noInline, self, bound, s, Kids(e));
        NodeApart(p, bound, e, ks, s.highest, s2.highest);
        NotInlinedStep(p, noInline, self, s, e);
      }
    }
  }

  lemma NotInlinedStep(p: Program, noInline: set<FuncId>, self: FuncId, s: ConstTable, e: Expr)
    requires !Inlinable(p, noInline, self, e)
    ensures var (ks, s2) := InlinedAll(p, noInline, self, s, Kids(e));
            Inlined(p, noInline, self, s, e) == (WithKids(e, ks), s2)
  {}

  lemma PureKids(p: Program, e: Expr)
    requires AllPure(p, Called(p, e))
    ensures AllPure(p, CalledAll(p, Kids(e)))
  {
    CalledKids(p, e);
  }

  lemma KidsApart(p: Program, bound: seq<ConstId>, h: nat, e: Expr)
    requires Apart(SkippedDecls(p, e), ReadOutside(p, bound, e), h) && !Skips(p, e)
    ensures Apart(SkippedDeclsAll(p, Kids(e)), ReadOutsideAll(p, bound, Kids(e)), h)
    ensures Below(OwnReads(bound, e), h) && OwnReads(bound, e) !! SkippedDecls(p, e)
  {}

  lemma NodeApart(p: Program, bound: seq<ConstId>, e: Expr, ks: seq<Expr>, lo: nat, hi: nat)
    requires |ks| == |Kids(e)| && !Skips(p, e) && Kids(WithKids(e, ks)) == ks
    requires Below(OwnReads(bound, e), lo) && OwnReads(bound, e) !! SkippedDecls(p, e)
    requires StaysApart(SkippedDeclsAll(p, Kids(e)), ReadOutsideAll(p, bound, Kids(e)),
                        SkippedDeclsAll(p, ks), ReadOutsideAll(p, bound, ks), lo, hi)
    ensures var k := WithKids(e, ks);
            StaysApart(SkippedDecls(p, e), ReadOutside(p, bound, e), SkippedDecls(p, k), ReadOutside(p, bound, k), lo, hi)
  {
    var k := WithKids(e, ks);
    assert OwnReads(bound, k) == OwnReads(bound, e) && !Skips(p, k);
  }

  lemma {:induction false} InlinedAllSkips(
    p: Program, noInline: set<FuncId>, self: FuncId, bound: seq<ConstId>, s: ConstTable, es: seq<Expr>)
    requires AllReady(p) && SkipsSafelyAnywhere(p) && AllPure(p, CalledAll(p, es))
    requires Apart(SkippedDeclsAll(p, es), ReadOutsideAll(p, bound, es), s.highest)
    ensures var (ks, s2) := InlinedAll(p, noInline, self, s, es);
            StaysApart(SkippedDeclsAll(p, es), ReadOutsideAll(p, bound, es),
                       SkippedDeclsAll(p, ks), ReadOutsideAll(p, bound, ks), s.highest, s2.highest)
    decreases CalledAll(p, es), SizeAll(es), 1
  {
    if es != [] {
      CalledParts(p, es);
      var (k, s1) := Inlined(p, noInline, self, s, es[0]);
      var (ks, s2) := InlinedAll(p, noInline, self, s1, es[1..]);
      AllFirst(p, noInline, self, s, es);
      assert ([k] + ks)[1..] == ks;
      var a, x := SkippedDecls(p, es[0]), ReadOutside(p, bound, es[0]);
      var b, y := SkippedDeclsAll(p, es[1..]), ReadOutsideAll(p, bound, es[1..]);
      assert Apart(a, x, s.highest) && Apart(b, y, s1.highest);
      hide Apart, StaysApart, Inlined, InlinedAll, Called, CalledAll, AllReady, SkipsSafelyAnywhere;
      InlinedSkips(p, noInline, self, bound, s, es[0]);
      InlinedAllSkips(p, noInline, self, bound, s1, es[1..]);
      ApartTwice(a, x, b, y, SkippedDecls(p, k), ReadOutside(p, bound, k), SkippedDeclsAll(p, ks),
                 ReadOutsideAll(p, bound, ks), s.highest, s1.highest, s2.highest);
    }
  }

  /** The body comes with names of its own, apart from each other as in the inlined function. */
  lemma {:induction false} InlinedCallSkips(
    p: Program, noInline: set<FuncId>, self: FuncId, bound: seq<ConstId>, s: ConstTable, e: Expr)
    requires AllReady(p) && SkipsSafelyAnywhere(p) && AllPure(p, Called(p, e)) && Inlinable(p, noInline, self, e)
    requires Apart(SkippedDecls(p, e), ReadOutside(p, bound, e), s.highest)
    ensures var (k, s2) := Inlined(p, noInline, self, s, e);
            StaysApart(SkippedDecls(p, e), ReadOutside(p, bound, e), SkippedDecls(p, k), ReadOutside(p, bound, k),
                       s.highest, s2.highest)
    decreases Called(p, e), SizeAll(Kids(e)), 2
  {
    var c := CallUnfold(p, noInline, self, s, e);
    CalledKids(p, e);
    BodyCallsFewer(p, e);
    CalledRemapped(p, c.t, p.funcs[e.func].kind.body);
    BodyApart(p, bound, s, e, c);
    ArgsApart(p, bound, s.highest, e);
    hide Inlined, InlinedAll, Remapped, Inlinable, Called, CalledAll, Regroup, Ready, AllReady, SkipsSafelyAnywhere, Apart, StaysApart;
    InlinedAllShape(p, noInline, self, c.s0, e.args);
    InlinedShape(p, noInline, self, c.s1, c.body);
    Highest(s, c);
    ApartLater(SkippedDeclsAll(p, e.args), ReadOutsideAll(p, bound, e.args), s.highest, c.s0.highest);
    ApartLater(SkippedDecls(p, c.body), ReadOutside(p, bound, c.body), c.s0.highest, c.s1.highest);
    InlinedAllSkips(p, noInline, self, bound, c.s0, e.args);
    InlinedSkips(p, noInline, self, bound, c.s1, c.body);
    GroupSkips(p, bound, c.news, c.args, c.last);
    CallApart(SkippedDeclsAll(p, e.args), ReadOutsideAll(p, bound, e.args), SkippedDecls(p, c.body), ReadOutside(p, bound, c.body),
              SkippedDeclsAll(p, c.args), ReadOutsideAll(p, bound, c.args), SkippedDecls(p, c.last), ReadOutside(p, bound, c.last),
              s.highest, c.s0.highest, c.s1.highest, c.s2.highest);
  }

  lemma Highest(s: ConstTable, c: Unfolded)
    requires Extended(s, c.s0) && Extended(c.s0, c.s1) && Extended(c.s1, c.s2)
    ensures s.highest <= c.s0.highest <= c.s1.highest <= c.s2.highest
  {}

  lemma ArgsApart(p: Program, bound: seq<ConstId>, h: nat, e: Expr)
    requires e.Call? && p.IsUser(e.func) && Apart(SkippedDecls(p, e), ReadOutside(p, bound, e), h)
    ensures SkippedDecls(p, e) == SkippedDeclsAll(p, e.args) && ReadOutside(p, bound, e) == ReadOutsideAll(p, bound, e.args)
    ensures Apart(SkippedDeclsAll(p, e.args), ReadOutsideAll(p, bound, e.args), h)
  {
    assert Kids(e) == e.args && !Skips(p, e) && OwnReads(bound, e) == {};
  }

  lemma BodyApart(p: Program, bound: seq<ConstId>, s: ConstTable, e: Expr, c: Unfolded)
    requires e.Call? && p.IsUser(e.func) && SkipsSafelyAnywhere(p) && AllPure(p, Called(p, e))
    requires Injective(c.t) && Renamable(c.t, p.funcs[e.func].kind.body) && c.body == Remapped(c.t, p.funcs[e.func].kind.body)
    requires c.t.Values <= Range(s.highest, c.s0.highest)
    ensures Apart(SkippedDecls(p, c.body), ReadOutside(p, bound, c.body), c.s0.highest)
    ensures SkippedDecls(p, c.body) + ReadOutside(p, bound, c.body) <= Range(s.highest, c.s0.highest)
  {
    var f := e.func;
    var body, own := p.funcs[f].kind.body, p.funcs[f].kind.consts.bound;
    assert f in DirectCalls(p, e) && FuncSkipsSafely(p, f);
    SkippingImage(p, c.t, own, bound, body);
    ImageDisjoint(c.t, SkippedDecls(p, body), ReadOutside(p, own, body));
    InValues(c.t, SkippedDecls(p, body));
    InValues(c.t, ReadOutside(p, own, body));
  }

  lemma InValues(t: Remap, ids: set<ConstId>)
    ensures Image(t, ids) <= t.Values
  {}

  lemma CallApart(
    a: set<ConstId>, x: set<ConstId>, b: set<ConstId>, y: set<ConstId>,
    a2: set<ConstId>, x2: set<ConstId>, b2: set<ConstId>, y2: set<ConstId>, h: nat, h0: nat, h1: nat, h2: nat)
    requires Apart(a, x, h) && b + y <= Range(h, h0) && h <= h0 <= h1 <= h2
    requires StaysApart(a, x, a2, x2, h0, h1) && StaysApart(b, y, b2, y2, h1, h2)
    ensures StaysApart(a, x, a2 + b2, x2 + y2, h, h2)
  {}

  /** What the group that replaces a call skips and reads. */
  lemma GroupSkips(p: Program, bound: seq<ConstId>, news: seq<ConstId>, args: seq<Expr>, last: Expr)
    requires |news| == |args|
    ensures var k := Regroup(Assigns(news, args) + [last]);
            && SkippedDecls(p, k) == SkippedDeclsAll(p, args) + SkippedDecls(p, last)
            && ReadOutside(p, bound, k) == ReadOutsideAll(p, bound, args) + ReadOutside(p, bound, last)
  {
    var es := Assigns(news, args) + [last];
    AssignsSkip(p, bound, news, args, last);
    assert Kids(Group(es)) == es;
    if |es| == 1 { assert es == [last]; }
  }

  lemma {:induction false} AssignsSkip(p: Program, bound: seq<ConstId>, news: seq<ConstId>, args: seq<Expr>, last: Expr)
    requires |news| == |args|
    ensures var es := Assigns(news, args) + [last];
            && SkippedDeclsAll(p, es) == SkippedDeclsAll(p, args) + SkippedDecls(p, last)
            && ReadOutsideAll(p, bound, es) == ReadOutsideAll(p, bound, args) + ReadOutside(p, bound, last)
    decreases |news|
  {
    var es := Assigns(news, args) + [last];
    if news == [] {
      assert es == [last] && [last][1..] == [];
    } else {
      AssignsSkip(p, bound, news[1..], args[1..], last);
      assert es[1..] == Assigns(news[1..], args[1..]) + [last];
      OneKid(p, bound, news[0], args[0]);
    }
  }

  lemma OneKid(p: Program, bound: seq<ConstId>, id: ConstId, e: Expr)
    ensures SkippedDecls(p, Assign(id, e)) == SkippedDecls(p, e)
    ensures ReadOutside(p, bound, Assign(id, e)) == ReadOutside(p, bound, e)
  {
    var rest := [e][1..];
    assert Kids(Assign(id, e)) == [e] && rest == [];
    assert SkippedDeclsAll(p, [e]) == SkippedDecls(p, e) + SkippedDeclsAll(p, rest);
    assert ReadOutsideAll(p, bound, [e]) == ReadOutside(p, bound, e) + ReadOutsideAll(p, bound, rest);
    assert OwnReads(bound, Assign(id, e)) == {};
  }

  // ----- Whole programs -----

  /** The programs agree on which calls make a nullable union out of its tag. */
  ghost predicate SameSkips(p: Program, p2: Program) {
    forall f: FuncId :: IsTagUnion(p2, f) <==> IsTagUnion(p, f)
  }

  lemma {:induction false} SkipsSame(p: Program, p2: Program, bound: seq<ConstId>, e: Expr)
    requires SameSkips(p, p2)
    ensures SkippedDecls(p2, e) == SkippedDecls(p, e) && ReadOutside(p2, bound, e) == ReadOutside(p, bound, e)
    decreases Size(e), 0
  {
    assert Skips(p2, e) == Skips(p, e);
    AllSkipsSame(p, p2, bound, Kids(e));
  }

  lemma {:induction false} AllSkipsSame(p: Program, p2: Program, bound: seq<ConstId>, es: seq<Expr>)
    requires SameSkips(p, p2)
    ensures SkippedDeclsAll(p2, es) == SkippedDeclsAll(p, es) && ReadOutsideAll(p2, bound, es) == ReadOutsideAll(p, bound, es)
    decreases SizeAll(es), 1
  {
    if es != [] {
      SkipsSame(p, p2, bound, es[0]);
      AllSkipsSame(p, p2, bound, es[1..]);
    }
  }

  lemma {:induction false} SkippedAreIds(p: Program, bound: seq<ConstId>, e: Expr)
    ensures SkippedDecls(p, e) <= Assigned(e) && ReadOutside(p, bound, e) <= Uses(e) + ToSet(bound)
    decreases Size(e), 0
  {
    AllSkippedAreIds(p, bound, Kids(e));
  }

  lemma {:induction false} AllSkippedAreIds(p: Program, bound: seq<ConstId>, es: seq<Expr>)
    ensures SkippedDeclsAll(p, es) <= AssignedAll(es) && ReadOutsideAll(p, bound, es) <= UsesAll(es) + ToSet(bound)
    decreases SizeAll(es), 1
  {
    if es != [] {
      SkippedAreIds(p, bound, es[0]);
      AllSkippedAreIds(p, bound, es[1..]);
    }
  }

  lemma InlinedSameSkips(p: Program, keep: set<FuncId>)
    ensures SameSkips(p, InlinedProgram(p, keep))
  {
    var p2 := InlinedProgram(p, keep);
    forall f: FuncId ensures IsTagUnion(p2, f) <==> IsTagUnion(p, f) {
      if f < |p.funcs| { SameUnions(p, p2); }
    }
  }

  lemma SameUnions(p: Program, p2: Program)
    requires p2.types == p.types
    ensures forall u :: UnionIsNullableStruct(p2, u) <==> UnionIsNullableStruct(p, u)
    ensures forall t :: StructIsTagType(p2, t) <==> StructIsTagType(p, t)
  {
    forall u ensures UnionIsNullableStruct(p2, u) <==> UnionIsNullableStruct(p, u) {
      forall t ensures StructIsTagType(p2, t) <==> StructIsTagType(p, t) {}
    }
  }

  lemma FuncStaysSafe(p: Program, keep: set<FuncId>, f: FuncId)
    requires AllReady(p) && SkipsSafelyAnywhere(p) && PureCallsPure(p) && f < |p.funcs|
    ensures FuncSkipsSafely(InlinedProgram(p, keep), f)
  {
    var p2 := InlinedProgram(p, keep);
    if p.IsUser(f) && !p.funcs[f].isAction {
      var consts, body := p.funcs[f].kind.consts, p.funcs[f].kind.body;
      assert Ready(p.funcs[f]) && FuncSkipsSafely(p, f);
      BodyReachesPure(p, f);
      SkippedAreIds(p, consts.bound, body);
      assert forall id | id in consts.bound :: id in consts.All();
      var (k, s) := Inlined(p, keep, f, consts, body);
      InlinedSkips(p, keep, f, consts.bound, consts, body);
      InlinedShape(p, keep, f, consts, body);
      InlinedSameSkips(p, keep);
      SkipsSame(p, p2, consts.bound, k);
      assert p2.funcs[f] == FuncDecl(User(s, k), false);
    }
  }

  /** Inlining creates constants inside operands that get no code, but never code that reads them. */
  lemma StaysSafe(p: Program, keep: set<FuncId>)
    requires AllReady(p) && SkipsSafelyAnywhere(p) && PureCallsPure(p)
    ensures SkipsSafelyAnywhere(InlinedProgram(p, keep))
  {
    forall f | 0 <= f < |p.funcs| ensures FuncSkipsSafely(InlinedProgram(p, keep), f) {
      FuncStaysSafe(p, keep, f);
    }
  }

  lemma StillFits(p: Program, keep: set<FuncId>)
    requires AllReady(p) && Representation.Fits(p)
    ensures Representation.Fits(InlinedProgram(p, keep))
  {
    var p2 := InlinedProgram(p, keep);
    forall f | 0 <= f < |p.funcs| ensures Representation.FuncFits(p2, f) {
      assert Representation.FuncFits(p, f);
      if p.IsUser(f) { InlinedShape(p, keep, f, p.funcs[f].kind.consts, p.funcs[f].kind.body); }
    }
    assert forall t :: p2.IsStruct(t) <==> p.IsStruct(t);
  }

  /** Inlining and then generating code: the machine performs what the program meant at first. */
  lemma InlinedProgramCorrect(p: Program, keep: set<FuncId>, order: seq<FuncId>, fuel: nat, w: World)
    requires AllReady(p) && Representation.Fits(p) && SkipsSafelyAnywhere(p) && PureCallsPure(p)
    requires Whole.NoInputs(p.execs) && Whole.Enumerates(p, order)
    requires RunExecs(p, fuel, p.execs, w).Some?
    ensures var g := Generator.GenProgram(InlinedProgram(p, keep), order);
            && g.entry in Whole.Executable(g).labels
            && Reaches(Whole.Executable(g), Running(Whole.Executable(g).labels[g.entry], [], 0, w),
                       Done(RunExecs(p, fuel, p.execs, w).value))
  {
    var p2 := InlinedProgram(p, keep);
    ProgramMeans(p, keep, fuel, w);
    StaysSafe(p, keep);
    StillFits(p, keep);
    assert forall f :: p2.IsUser(f) <==> p.IsUser(f);
    hide Representation.Fits, SkipsSafelyAnywhere, AllReady, PureCallsPure, Generator.GenProgram, RunExecs, Whole.Executable, Reaches;
    Whole.ProgramCorrect(p2, order, fuel, w);
  }
}
