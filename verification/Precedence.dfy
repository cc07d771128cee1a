/** How operators bind, said with the operators themselves: which of two readings the parser takes. */
module Precedence {
  import opened Parsing

  /** The infix operators in ten levels, from the loosest to the tightest. */
  predicate InLevel(k: Kind, level: nat) {
    match level
    case 0 => k == OpBang || k == OpBangBang
    case 1 => k == OpPipe || k == OpPipePipe
    case 2 => k == OpHat
    case 3 => k == OpAmp || k == OpAmpAmp
    case 4 => k == OpEqEq || k == OpBangEq
    case 5 => k == OpLe || k == OpLeEq || k == OpGt || k == OpGtEq
    case 6 => k == OpShiftL || k == OpShiftR
    case 7 => k == OpPlus || k == OpMinus || k == OpColonColon || k == OpTilde
    case 8 => k == OpStar || k == OpSlash || k == OpRem
    case 9 => k == OpQMarkQMark
    case _ => false
  }

  const PREFIXES: set<Kind> := {OpPlus, OpPlusPlus, OpMinus, OpMinusMinus, OpBang, OpTilde, OpQMark}

  predicate IsId(t: Token) {
    t.kind == Identifier
  }

  /** Room for a few more nested expressions. */
  const SHALLOW := 90

  function Parse(ts: seq<Token>, depth: nat): Parsed {
    ParseExpr(ts, depth, 0, TOP)
  }

  // ----- Two infix operators -----

  /** Of two infix operators the right one takes the operand between them exactly when it stands in a
      tighter level, or in the same level and is `::`. */
  lemma InfixLaw(a: Token, o1: Token, b: Token, o2: Token, c: Token, i: nat, j: nat, depth: nat)
    requires depth < SHALLOW && IsId(a) && IsId(b) && IsId(c) && InLevel(o1.kind, i) && InLevel(o2.kind, j)
    ensures Parse([a, o1, b, o2, c], depth)
         == (if i < j || (i == j && o2.kind == OpColonColon)
             then Binary(IdExpr(a), o1, Binary(IdExpr(b), o2, IdExpr(c)))
             else Binary(Binary(IdExpr(a), o1, IdExpr(b)), o2, IdExpr(c)), [])
  {
    hide Parse, IsOpen, ParseExpr, ParseLoop, Takes, Starts, Peek, RhsPrecedence, IsBinary, InLevel, PrecedenceOf;
    var p := LevelIs(i, o1.kind);
    var q := LevelIs(j, o2.kind);
    if i < j { Ordered(i, j); }
    if j < i { Ordered(j, i); }
    TakesIs(o1.kind, 0);
    TakesIs(o2.kind, 0);
    TakesIs(o2.kind, p);
    if i < j || (i == j && o2.kind == OpColonColon) {
      RightFirst(a, o1, b, o2, c, depth);
    } else {
      LeftFirst(a, o1, b, o2, c, depth);
    }
  }

  lemma RightFirst(a: Token, o1: Token, b: Token, o2: Token, c: Token, depth: nat)
    requires depth < SHALLOW && IsId(a) && IsId(b) && IsId(c) && IsBinary(o1.kind) && IsBinary(o2.kind)
    requires Takes(o1.kind, 0, TOP) && Takes(o2.kind, RhsPrecedence(o1.kind), TOP)
    ensures Parse([a, o1, b, o2, c], depth) == (Binary(IdExpr(a), o1, Binary(IdExpr(b), o2, IdExpr(c))), [])
  {
    hide Parse, IsOpen, ParseExpr, ParseLoop, Takes, Starts, Peek, RhsPrecedence, IsBinary, InLevel, PrecedenceOf;
    var ts := [a, o1, b, o2, c];
    var r1, r2, r3, r4 := Cut5(a, o1, b, o2, c);
    var bc, p := Binary(IdExpr(b), o2, IdExpr(c)), RhsPrecedence(o1.kind);
    NotAssign(o1.kind);
    NotAssign(o2.kind);
    EndStops();
    Ends(r4, c, [], depth + 2, RhsPrecedence(o2.kind));
    Joins(r3, IdExpr(b), o2, r4, IdExpr(c), [], depth + 2, p);
    Stops(bc, [], depth + 2, p);
    Begins(r2, b, r3, depth + 1, p);
    Joins(r1, IdExpr(a), o1, r2, bc, [], depth + 1, 0);
    Stops(Binary(IdExpr(a), o1, bc), [], depth + 1, 0);
    Begins(ts, a, r1, depth, 0);
    ParseIs(ts, depth);
  }

  lemma LeftFirst(a: Token, o1: Token, b: Token, o2: Token, c: Token, depth: nat)
    requires depth < SHALLOW && IsId(a) && IsId(b) && IsId(c) && IsBinary(o1.kind) && IsBinary(o2.kind)
    requires Takes(o1.kind, 0, TOP) && Takes(o2.kind, 0, TOP) && !Takes(o2.kind, RhsPrecedence(o1.kind), TOP)
    ensures Parse([a, o1, b, o2, c], depth) == (Binary(Binary(IdExpr(a), o1, IdExpr(b)), o2, IdExpr(c)), [])
  {
    hide Parse, IsOpen, ParseExpr, ParseLoop, Takes, Starts, Peek, RhsPrecedence, IsBinary, InLevel, PrecedenceOf;
    var ts, ab := [a, o1, b, o2, c], Binary(IdExpr(a), o1, IdExpr(b));
    var r1, r2, r3, r4 := Cut5(a, o1, b, o2, c);
    NotAssign(o1.kind);
    NotAssign(o2.kind);
    EndStops();
    InfixOpens(ts, a, o1, b, r1, r2, r3, depth, 0);
    Ends(r4, c, [], depth + 1, RhsPrecedence(o2.kind));
    Joins(r3, ab, o2, r4, IdExpr(c), [], depth + 1, 0);
    Stops(Binary(ab, o2, IdExpr(c)), [], depth + 1, 0);
    ParseIs(ts, depth);
  }

  // ----- Prefix and postfix operators -----

  /** A field, a call or an index behind an expression. */
  predicate IsPostfix(post: seq<Token>) {
    || (|post| == 2 && post[0].kind == OpDot && IsId(post[1]))
    || (|post| == 1 && post[0].kind == OpParenParen)
    || (|post| == 2 && post[0].kind == SepOpenParen && post[1].kind == SepCloseParen)
    || (|post| == 3 && post[0].kind == SepOpenSquare && IsId(post[1]) && post[2].kind == SepCloseSquare)
  }

  function Applied(lhs: Node, post: seq<Token>): Node
    requires IsPostfix(post)
  {
    if post[0].kind == OpDot then Field(lhs, post[0], post[1])
    else if post[0].kind == SepOpenSquare then Index(lhs, post[0], [IdExpr(post[1])], [], post[2])
    else Call([], lhs, post[0], [], [], post[|post| - 1])
  }

  /** Postfix operators bind tighter than all infix operators. */
  lemma PostfixLaw(a: Token, o: Token, b: Token, post: seq<Token>, i: nat, depth: nat)
    requires depth < SHALLOW && IsId(a) && IsId(b) && InLevel(o.kind, i) && IsPostfix(post)
    ensures Parse([a, o, b] + post, depth) == (Binary(IdExpr(a), o, Applied(IdExpr(b), post)), [])
  {
    hide Parse, IsOpen, ParseExpr, ParseLoop, Takes, Starts, Peek, RhsPrecedence, LhsPrecedence, IsOperator, IsBinary, InLevel,
         PrecedenceOf, IsPostfix, Applied, IsTest, Tested;
    var p := LevelIs(i, o.kind);
    TakesIs(o.kind, 0);
    PostfixTaken(post, p);
    NotAssign(o.kind);
    EndStops();
    CutThree(a, o, b, post);
    assert post + [] == post;
    var rhs := Applied(IdExpr(b), post);
    PostfixJoins(IdExpr(b), post, [], depth + 2, p);
    Stops(rhs, [], depth + 2, p);
    Begins([b] + post, b, post, depth + 1, p);
    Joins([o, b] + post, IdExpr(a), o, [b] + post, rhs, [], depth + 1, 0);
    Stops(Binary(IdExpr(a), o, rhs), [], depth + 1, 0);
    Begins([a, o, b] + post, a, [o, b] + post, depth, 0);
    ParseIs([a, o, b] + post, depth);
  }

  /** They also bind tighter than prefix operators. */
  lemma PrefixedPostfixLaw(u: Token, a: Token, post: seq<Token>, depth: nat)
    requires depth < SHALLOW && u.kind in PREFIXES && IsId(a) && IsPostfix(post)
    ensures Parse([u, a] + post, depth) == (Unary(u, Applied(IdExpr(a), post)), [])
  {
    hide Parse, IsOpen, ParseExpr, ParseLoop, Takes, Starts, Peek, RhsPrecedence, LhsPrecedence, IsOperator, IsBinary, InLevel,
         PrecedenceOf, IsPostfix, Applied, IsTest, Tested;
    PrefixIs(u.kind);
    PostfixTaken(post, UNARY_PRECEDENCE);
    EndStops();
    CutTwo(u, a, post);
    assert post + [] == post;
    PostfixJoins(IdExpr(a), post, [], depth + 2, UNARY_PRECEDENCE);
    Stops(Applied(IdExpr(a), post), [], depth + 2, UNARY_PRECEDENCE);
    Begins([a] + post, a, post, depth + 1, UNARY_PRECEDENCE);
    Prefixes([u, a] + post, u, [a] + post, Applied(IdExpr(a), post), [], depth, 0);
    Stops(Unary(u, Applied(IdExpr(a), post)), [], depth + 1, 0);
    ParseIs([u, a] + post, depth);
  }

  /** A prefix operator binds tighter than all infix operators but `??`. */
  lemma PrefixLaw(u: Token, a: Token, o: Token, b: Token, i: nat, depth: nat)
    requires depth < SHALLOW && u.kind in PREFIXES && IsId(a) && IsId(b) && InLevel(o.kind, i)
    ensures Parse([u, a, o, b], depth)
         == (if o.kind == OpQMarkQMark then Unary(u, Binary(IdExpr(a), o, IdExpr(b)))
             else Binary(Unary(u, IdExpr(a)), o, IdExpr(b)), [])
  {
    hide Parse, IsOpen, ParseExpr, ParseLoop, Takes, Starts, Peek, RhsPrecedence, LhsPrecedence, IsOperator, IsBinary, InLevel,
         PrecedenceOf, IsPostfix, Applied, IsTest, Tested;
    var p := LevelIs(i, o.kind);
    PrefixIs(u.kind);
    TakesIs(o.kind, 0);
    TakesIs(o.kind, UNARY_PRECEDENCE);
    TightestIs(o.kind, i);
    NotAssign(o.kind);
    EndStops();
    var ts := [u, a, o, b];
    var r1, r2, r3 := Cut4(u, a, o, b);
    ParseIs(ts, depth);
    if o.kind == OpQMarkQMark {
      var ab := Binary(IdExpr(a), o, IdExpr(b));
      InfixOpens(r1, a, o, b, r2, r3, [], depth + 1, UNARY_PRECEDENCE);
      Stops(ab, [], depth + 2, UNARY_PRECEDENCE);
      Prefixes(ts, u, r1, ab, [], depth, 0);
      Stops(Unary(u, ab), [], depth + 1, 0);
    } else {
      Ends(r3, b, [], depth + 1, p);
      Ends(r1, a, r2, depth + 1, UNARY_PRECEDENCE);
      Prefixes(ts, u, r1, IdExpr(a), r2, depth, 0);
      Joins(r2, Unary(u, IdExpr(a)), o, r3, IdExpr(b), [], depth + 1, 0);
      Stops(Binary(Unary(u, IdExpr(a)), o, IdExpr(b)), [], depth + 1, 0);
    }
  }

  // ----- Type tests -----

  predicate IsTest(test: seq<Token>) {
    || (|test| == 2 && test[0].kind == Keyword(Is) && IsId(test[1]))
    || (|test| == 3 && test[0].kind == Keyword(As) && IsId(test[1]) && IsId(test[2]))
  }

  function Tested(lhs: Node, test: seq<Token>): Node
    requires IsTest(test)
  {
    TypeTest(lhs, test[0], test[1], test[2..])
  }

  /** A type test takes a whole expression of shifts, sums and products before it, and only the last
      operand of a comparison or a logical operator. */
  lemma TypeTestLaw(a: Token, o: Token, b: Token, test: seq<Token>, i: nat, depth: nat)
    requires depth < SHALLOW && IsId(a) && IsId(b) && InLevel(o.kind, i) && IsTest(test)
    ensures Parse([a, o, b] + test, depth)
         == (if i >= 6 then Tested(Binary(IdExpr(a), o, IdExpr(b)), test)
             else Binary(IdExpr(a), o, Tested(IdExpr(b), test)), [])
  {
    hide Parse, IsOpen, ParseExpr, ParseLoop, Takes, Starts, Peek, RhsPrecedence, LhsPrecedence, IsOperator, IsBinary, InLevel,
         PrecedenceOf, IsPostfix, Applied, IsTest, Tested;
    var p := LevelIs(i, o.kind);
    TakesIs(o.kind, 0);
    TestLevel(i);
    TestTaken(test, 0);
    TestTaken(test, p);
    NotAssign(o.kind);
    EndStops();
    CutThree(a, o, b, test);
    assert test + [] == test;
    var ts := [a, o, b] + test;
    ParseIs(ts, depth);
    if i >= 6 {
      InfixOpens(ts, a, o, b, [o, b] + test, [b] + test, test, depth, 0);
      TestJoins(Binary(IdExpr(a), o, IdExpr(b)), test, [], depth + 1, 0);
      Stops(Tested(Binary(IdExpr(a), o, IdExpr(b)), test), [], depth + 1, 0);
    } else {
      TestJoins(IdExpr(b), test, [], depth + 2, p);
      Stops(Tested(IdExpr(b), test), [], depth + 2, p);
      Begins([b] + test, b, test, depth + 1, p);
      Joins([o, b] + test, IdExpr(a), o, [b] + test, Tested(IdExpr(b), test), [], depth + 1, 0);
      Stops(Binary(IdExpr(a), o, Tested(IdExpr(b), test)), [], depth + 1, 0);
      Begins(ts, a, [o, b] + test, depth, 0);
    }
  }

  /** A prefix operator belongs to the expression tested. */
  lemma PrefixedTestLaw(u: Token, a: Token, test: seq<Token>, depth: nat)
    requires depth < SHALLOW && u.kind in PREFIXES && IsId(a) && IsTest(test)
    ensures Parse([u, a] + test, depth) == (Tested(Unary(u, IdExpr(a)), test), [])
  {
    hide Parse, IsOpen, ParseExpr, ParseLoop, Takes, Starts, Peek, RhsPrecedence, LhsPrecedence, IsOperator, IsBinary, InLevel,
         PrecedenceOf, IsPostfix, Applied, IsTest, Tested;
    PrefixIs(u.kind);
    TestTaken(test, 0);
    TestTaken(test, UNARY_PRECEDENCE);
    EndStops();
    CutTwo(u, a, test);
    assert test + [] == test;
    Ends([a] + test, a, test, depth + 1, UNARY_PRECEDENCE);
    Prefixes([u, a] + test, u, [a] + test, IdExpr(a), test, depth, 0);
    TestJoins(Unary(u, IdExpr(a)), test, [], depth + 1, 0);
    Stops(Tested(Unary(u, IdExpr(a)), test), [], depth + 1, 0);
    ParseIs([u, a] + test, depth);
  }

  // ----- Conditionals, declarations and groups -----

  /** All infix operators bind tighter than `?` and `:`, before and behind them. */
  lemma ConditionalLaw(
    a: Token, o1: Token, b: Token, q: Token, c: Token, s: Token, d: Token, o2: Token, e: Token, i: nat,
    j: nat, depth: nat)
    requires depth < SHALLOW && IsId(a) && IsId(b) && IsId(c) && IsId(d) && IsId(e)
    requires InLevel(o1.kind, i) && InLevel(o2.kind, j) && q.kind == OpQMark && s.kind == SepColon
    ensures Parse([a, o1, b, q, c, s, d, o2, e], depth)
         == (Conditional(Binary(IdExpr(a), o1, IdExpr(b)), q, IdExpr(c), s, Binary(IdExpr(d), o2, IdExpr(e))), [])
  {
    hide Parse, IsOpen, ParseExpr, ParseLoop, Takes, Starts, Peek, RhsPrecedence, IsBinary, InLevel, PrecedenceOf;
    var p1 := LevelIs(i, o1.kind);
    var p2 := LevelIs(j, o2.kind);
    TakesIs(o1.kind, 0);
    TakesIs(o2.kind, GROUPING_PRECEDENCE);
    LooseTokens(p1);
    LooseTokens(p2);
    LooseTokens(GROUPING_PRECEDENCE);
    NotAssign(o1.kind);
    NotAssign(o2.kind);
    EndStops();
    var ts := [a, o1, b, q, c, s, d, o2, e];
    var r1, r2, r3, r4, r5, r6, r7, r8 := Cut9(a, o1, b, q, c, s, d, o2, e);
    var l, r := Binary(IdExpr(a), o1, IdExpr(b)), Binary(IdExpr(d), o2, IdExpr(e));
    InfixOpens(ts, a, o1, b, r1, r2, r3, depth, 0);
    Ends(r4, c, r5, depth + 1, GROUPING_PRECEDENCE);
    InfixOpens(r6, d, o2, e, r7, r8, [], depth + 1, GROUPING_PRECEDENCE);
    Stops(r, [], depth + 2, GROUPING_PRECEDENCE);
    ConditionalJoins(r3, l, q, r4, IdExpr(c), r5, s, r6, r, [], depth + 1, 0);
    Stops(Conditional(l, q, IdExpr(c), s, r), [], depth + 1, 0);
    ParseIs(ts, depth);
  }

  /** Behind a colon a further conditional belongs to the second branch. */
  lemma NestedConditionalLaw(
    a: Token, q1: Token, b: Token, s1: Token, c: Token, q2: Token, d: Token, s2: Token, e: Token, depth: nat)
    requires depth < SHALLOW && IsId(a) && IsId(b) && IsId(c) && IsId(d) && IsId(e)
    requires q1.kind == q2.kind == OpQMark && s1.kind == s2.kind == SepColon
    ensures Parse([a, q1, b, s1, c, q2, d, s2, e], depth)
         == (Conditional(IdExpr(a), q1, IdExpr(b), s1, Conditional(IdExpr(c), q2, IdExpr(d), s2, IdExpr(e))), [])
  {
    hide Parse, IsOpen, ParseExpr, ParseLoop, Takes, Starts, Peek, RhsPrecedence, IsBinary, InLevel, PrecedenceOf;
    LooseTokens(GROUPING_PRECEDENCE);
    EndStops();
    var ts := [a, q1, b, s1, c, q2, d, s2, e];
    var r1, r2, r3, r4, r5, r6, r7, r8 := Cut9(a, q1, b, s1, c, q2, d, s2, e);
    var r := Conditional(IdExpr(c), q2, IdExpr(d), s2, IdExpr(e));
    Ends(r8, e, [], depth + 2, GROUPING_PRECEDENCE);
    Ends(r6, d, r7, depth + 2, GROUPING_PRECEDENCE);
    ConditionalJoins(r5, IdExpr(c), q2, r6, IdExpr(d), r7, s2, r8, IdExpr(e), [], depth + 2, GROUPING_PRECEDENCE);
    Stops(r, [], depth + 2, GROUPING_PRECEDENCE);
    Begins(r4, c, r5, depth + 1, GROUPING_PRECEDENCE);
    Ends(r2, b, r3, depth + 1, GROUPING_PRECEDENCE);
    ConditionalJoins(r1, IdExpr(a), q1, r2, IdExpr(b), r3, s1, r4, r, [], depth + 1, 0);
    Stops(Conditional(IdExpr(a), q1, IdExpr(b), s1, r), [], depth + 1, 0);
    Begins(ts, a, r1, depth, 0);
    ParseIs(ts, depth);
  }

  /** A declaration takes all infix operators behind it. */
  lemma DeclarationLaw(x: Token, eq: Token, a: Token, o: Token, b: Token, i: nat, depth: nat)
    requires depth < SHALLOW && IsId(x) && eq.kind == OpEq && IsId(a) && IsId(b) && InLevel(o.kind, i)
    ensures Parse([x, eq, a, o, b], depth) == (ConstDecl(x, eq, Binary(IdExpr(a), o, IdExpr(b))), [])
  {
    hide Parse, IsOpen, ParseExpr, ParseLoop, Takes, Starts, Peek, RhsPrecedence, IsBinary, InLevel, PrecedenceOf;
    var p := LevelIs(i, o.kind);
    TakesIs(o.kind, ASSIGNMENT_PRECEDENCE);
    NotAssign(o.kind);
    EndStops();
    var ts := [x, eq, a, o, b];
    var r1, r2, r3, r4 := Cut5(x, eq, a, o, b);
    var ab := Binary(IdExpr(a), o, IdExpr(b));
    InfixOpens(r2, a, o, b, r3, r4, [], depth + 1, ASSIGNMENT_PRECEDENCE);
    Stops(ab, [], depth + 2, ASSIGNMENT_PRECEDENCE);
    Declares(ts, x, r1, eq, r2, ab, [], depth, 0);
    Stops(ConstDecl(x, eq, ab), [], depth + 1, 0);
    ParseIs(ts, depth);
  }

  /** It also takes a conditional. */
  lemma DeclaredConditionalLaw(x: Token, eq: Token, a: Token, q: Token, b: Token, s: Token, c: Token, depth: nat)
    requires depth < SHALLOW && IsId(x) && eq.kind == OpEq && IsId(a) && IsId(b) && IsId(c)
    requires q.kind == OpQMark && s.kind == SepColon
    ensures Parse([x, eq, a, q, b, s, c], depth)
         == (ConstDecl(x, eq, Conditional(IdExpr(a), q, IdExpr(b), s, IdExpr(c))), [])
  {
    hide Parse, IsOpen, ParseExpr, ParseLoop, Takes, Starts, Peek, RhsPrecedence, IsBinary, InLevel, PrecedenceOf;
    LooseTokens(GROUPING_PRECEDENCE);
    LooseTokens(ASSIGNMENT_PRECEDENCE);
    EndStops();
    var ts := [x, eq, a, q, b, s, c];
    var r1, r2, r3, r4, r5, r6 := Cut7(x, eq, a, q, b, s, c);
    var r := Conditional(IdExpr(a), q, IdExpr(b), s, IdExpr(c));
    Ends(r6, c, [], depth + 2, GROUPING_PRECEDENCE);
    Ends(r4, b, r5, depth + 2, GROUPING_PRECEDENCE);
    ConditionalJoins(r3, IdExpr(a), q, r4, IdExpr(b), r5, s, r6, IdExpr(c), [], depth + 2, ASSIGNMENT_PRECEDENCE);
    Stops(r, [], depth + 2, ASSIGNMENT_PRECEDENCE);
    Begins(r2, a, r3, depth + 1, ASSIGNMENT_PRECEDENCE);
    Declares(ts, x, r1, eq, r2, r, [], depth, 0);
    Stops(ConstDecl(x, eq, r), [], depth + 1, 0);
    ParseIs(ts, depth);
  }

  /** A semicolon binds loosest: it separates expressions with infix operators. */
  lemma GroupLaw(
    a: Token, o1: Token, b: Token, semi: Token, c: Token, o2: Token, d: Token, i: nat, j: nat, depth: nat)
    requires depth < SHALLOW && IsId(a) && IsId(b) && IsId(c) && IsId(d)
    requires InLevel(o1.kind, i) && InLevel(o2.kind, j) && semi.kind == OpSemi
    ensures Parse([a, o1, b, semi, c, o2, d], depth)
         == (Group([Binary(IdExpr(a), o1, IdExpr(b)), Binary(IdExpr(c), o2, IdExpr(d))], [semi]), [])
  {
    hide Parse, IsOpen, ParseExpr, ParseLoop, Takes, Starts, Peek, RhsPrecedence, IsBinary, InLevel, PrecedenceOf;
    var p1 := LevelIs(i, o1.kind);
    var p2 := LevelIs(j, o2.kind);
    TakesIs(o1.kind, 0);
    TakesIs(o2.kind, GROUPING_PRECEDENCE);
    LooseTokens(p1);
    NotAssign(o1.kind);
    NotAssign(o2.kind);
    EndStops();
    var ts := [a, o1, b, semi, c, o2, d];
    var r1, r2, r3, r4, r5, r6 := Cut7(a, o1, b, semi, c, o2, d);
    var l, r := Binary(IdExpr(a), o1, IdExpr(b)), Binary(IdExpr(c), o2, IdExpr(d));
    InfixOpens(ts, a, o1, b, r1, r2, r3, depth, 0);
    InfixOpens(r4, c, o2, d, r5, r6, [], depth + 1, GROUPING_PRECEDENCE);
    Stops(r, [], depth + 2, GROUPING_PRECEDENCE);
    GroupJoins(r3, l, semi, r4, r, depth + 1, 0);
    Stops(Group([l, r], [semi]), [], depth + 1, 0);
    ParseIs(ts, depth);
  }

  /** It ends a declaration, which ends with its initialiser. */
  lemma GroupedDeclarationLaw(x: Token, eq: Token, a: Token, semi: Token, b: Token, depth: nat)
    requires depth < SHALLOW && IsId(x) && eq.kind == OpEq && IsId(a) && IsId(b) && semi.kind == OpSemi
    ensures Parse([x, eq, a, semi, b], depth) == (Group([ConstDecl(x, eq, IdExpr(a)), IdExpr(b)], [semi]), [])
  {
    hide Parse, IsOpen, ParseExpr, ParseLoop, Takes, Starts, Peek, RhsPrecedence, IsBinary, InLevel, PrecedenceOf;
    LooseTokens(ASSIGNMENT_PRECEDENCE);
    EndStops();
    var ts := [x, eq, a, semi, b];
    var r1, r2, r3, r4 := Cut5(x, eq, a, semi, b);
    Ends(r2, a, r3, depth + 1, ASSIGNMENT_PRECEDENCE);
    Declares(ts, x, r1, eq, r2, IdExpr(a), r3, depth, 0);
    Ends(r4, b, [], depth + 1, GROUPING_PRECEDENCE);
    GroupJoins(r3, ConstDecl(x, eq, IdExpr(a)), semi, r4, IdExpr(b), depth + 1, 0);
    Stops(Group([ConstDecl(x, eq, IdExpr(a)), IdExpr(b)], [semi]), [], depth + 1, 0);
    ParseIs(ts, depth);
  }

  /** And it ends the second branch of a conditional. */
  lemma GroupedConditionalLaw(a: Token, q: Token, b: Token, s: Token, c: Token, semi: Token, d: Token, depth: nat)
    requires depth < SHALLOW && IsId(a) && IsId(b) && IsId(c) && IsId(d)
    requires q.kind == OpQMark && s.kind == SepColon && semi.kind == OpSemi
    ensures Parse([a, q, b, s, c, semi, d], depth)
         == (Group([Conditional(IdExpr(a), q, IdExpr(b), s, IdExpr(c)), IdExpr(d)], [semi]), [])
  {
    hide Parse, IsOpen, ParseExpr, ParseLoop, Takes, Starts, Peek, RhsPrecedence, IsBinary, InLevel, PrecedenceOf;
    LooseTokens(GROUPING_PRECEDENCE);
    EndStops();
    var ts := [a, q, b, s, c, semi, d];
    var r1, r2, r3, r4, r5, r6 := Cut7(a, q, b, s, c, semi, d);
    var l := Conditional(IdExpr(a), q, IdExpr(b), s, IdExpr(c));
    Ends(r4, c, r5, depth + 1, GROUPING_PRECEDENCE);
    Ends(r2, b, r3, depth + 1, GROUPING_PRECEDENCE);
    ConditionalJoins(r1, IdExpr(a), q, r2, IdExpr(b), r3, s, r4, IdExpr(c), r5, depth + 1, 0);
    Begins(ts, a, r1, depth, 0);
    Ends(r6, d, [], depth + 1, GROUPING_PRECEDENCE);
    GroupJoins(r5, l, semi, r6, IdExpr(d), depth + 1, 0);
    Stops(Group([l, IdExpr(d)], [semi]), [], depth + 1, 0);
    ParseIs(ts, depth);
  }

  // ----- Steps of the parser -----

  ghost predicate Starts(ts: seq<Token>, t: Token, rest: seq<Token>) {
    ts == [t] + rest && Peek(ts) == t.kind
  }

  /** The tokens of a list and what follows each. */
  lemma Cut4(t0: Token, t1: Token, t2: Token, t3: Token)
    returns (r1: seq<Token>, r2: seq<Token>, r3: seq<Token>)
    ensures Starts([t0, t1, t2, t3], t0, r1) && Starts(r1, t1, r2) && Starts(r2, t2, r3)
    ensures Starts(r3, t3, [])
    ensures Peek(r1) == t1.kind && Peek(r2) == t2.kind && Peek(r3) == t3.kind
  {
    r1 := [t1, t2, t3];
    r2 := [t2, t3];
    r3 := [t3];
  }

  lemma Cut5(t0: Token, t1: Token, t2: Token, t3: Token, t4: Token)
    returns (r1: seq<Token>, r2: seq<Token>, r3: seq<Token>, r4: seq<Token>)
    ensures Starts([t0, t1, t2, t3, t4], t0, r1) && Starts(r1, t1, r2) && Starts(r2, t2, r3)
    ensures Starts(r3, t3, r4) && Starts(r4, t4, [])
    ensures Peek(r1) == t1.kind && Peek(r2) == t2.kind && Peek(r3) == t3.kind && Peek(r4) == t4.kind
  {
    r1 := [t1, t2, t3, t4];
    r2 := [t2, t3, t4];
    r3 := [t3, t4];
    r4 := [t4];
  }

  lemma Cut7(t0: Token, t1: Token, t2: Token, t3: Token, t4: Token, t5: Token, t6: Token)
    returns (r1: seq<Token>, r2: seq<Token>, r3: seq<Token>, r4: seq<Token>, r5: seq<Token>, r6: seq<Token>)
    ensures Starts([t0, t1, t2, t3, t4, t5, t6], t0, r1) && Starts(r1, t1, r2) && Starts(r2, t2, r3)
    ensures Starts(r3, t3, r4) && Starts(r4, t4, r5) && Starts(r5, t5, r6)
    ensures Starts(r6, t6, [])
    ensures Peek(r1) == t1.kind && Peek(r2) == t2.kind && Peek(r3) == t3.kind && Peek(r4) == t4.kind
    ensures Peek(r5) == t5.kind && Peek(r6) == t6.kind
  {
    r1 := [t1, t2, t3, t4, t5, t6];
    r2 := [t2, t3, t4, t5, t6];
    r3 := [t3, t4, t5, t6];
    r4 := [t4, t5, t6];
    r5 := [t5, t6];
    r6 := [t6];
  }

  lemma Cut9(t0: Token, t1: Token, t2: Token, t3: Token, t4: Token, t5: Token, t6: Token, t7: Token, t8: Token)
    returns (r1: seq<Token>, r2: seq<Token>, r3: seq<Token>, r4: seq<Token>, r5: seq<Token>, r6: seq<Token>, r7: seq<Token>, r8: seq<Token>)
    ensures Starts([t0, t1, t2, t3, t4, t5, t6, t7, t8], t0, r1) && Starts(r1, t1, r2) && Starts(r2, t2, r3)
    ensures Starts(r3, t3, r4) && Starts(r4, t4, r5) && Starts(r5, t5, r6)
    ensures Starts(r6, t6, r7) && Starts(r7, t7, r8) && Starts(r8, t8, [])
    ensures Peek(r1) == t1.kind && Peek(r2) == t2.kind && Peek(r3) == t3.kind && Peek(r4) == t4.kind
    ensures Peek(r5) == t5.kind && Peek(r6) == t6.kind && Peek(r7) == t7.kind && Peek(r8) == t8.kind
  {
    r1 := [t1, t2, t3, t4, t5, t6, t7, t8];
    r2 := [t2, t3, t4, t5, t6, t7, t8];
    r3 := [t3, t4, t5, t6, t7, t8];
    r4 := [t4, t5, t6, t7, t8];
    r5 := [t5, t6, t7, t8];
    r6 := [t6, t7, t8];
    r7 := [t7, t8];
    r8 := [t8];
  }

  lemma CutThree(a: Token, o: Token, b: Token, rest: seq<Token>)
    ensures Starts([a, o, b] + rest, a, [o, b] + rest) && Starts([o, b] + rest, o, [b] + rest)
    ensures Starts([b] + rest, b, rest) && Peek([o, b] + rest) == o.kind
  {
    assert [a, o, b] + rest == [a] + ([o, b] + rest) && [o, b] + rest == [o] + ([b] + rest);
  }

  lemma CutTwo(u: Token, a: Token, rest: seq<Token>)
    ensures Starts([u, a] + rest, u, [a] + rest) && Starts([a] + rest, a, rest)
  {
    assert [u, a] + rest == [u] + ([a] + rest);
  }

  /** The precedence of a level. */
  function PrecedenceOf(level: nat): nat {
    match level
    case 6 => SHIFT_PRECEDENCE
    case 7 => ADDITIVE_PRECEDENCE
    case 8 => MULTIPLICATIVE_PRECEDENCE
    case 9 => DOUBLE_QMARK_PRECEDENCE
    case _ => BANG_PRECEDENCE + level
  }

  lemma ParseIs(ts: seq<Token>, depth: nat)
    ensures Parse(ts, depth) == ParseExpr(ts, depth, 0, TOP)
  {
    hide ParseExpr;
  }

  lemma TightestIs(k: Kind, i: nat)
    requires InLevel(k, i)
    ensures PrecedenceOf(i) > UNARY_PRECEDENCE <==> k == OpQMarkQMark
    ensures PrecedenceOf(i) != UNARY_PRECEDENCE
  {}

  lemma TestLevel(i: nat)
    requires i < 10
    ensures PrecedenceOf(i) > TYPE_TEST_PRECEDENCE <==> i >= 6
    ensures PrecedenceOf(i) != TYPE_TEST_PRECEDENCE
  {}

  lemma LevelIs(i: nat, k: Kind) returns (prec: nat)
    requires InLevel(k, i)
    ensures i < 10 && prec == PrecedenceOf(i) == RhsPrecedence(k) && IsBinary(k)
    ensures CONDITIONAL_PRECEDENCE < prec <= DOUBLE_QMARK_PRECEDENCE
  {
    hide IsBinary, RhsPrecedence;
    prec := PrecedenceOf(i);
    if i < 4 { LooseLevels(); } else if i < 6 { MiddleLevels(); } else { TightLevels(); }
    LevelIsBinary(i, k);
  }

  lemma LooseLevels()
    ensures RhsPrecedence(OpBang) == RhsPrecedence(OpBangBang) == BANG_PRECEDENCE
    ensures RhsPrecedence(OpPipe) == RhsPrecedence(OpPipePipe) == OR_PRECEDENCE
    ensures RhsPrecedence(OpHat) == XOR_PRECEDENCE
    ensures RhsPrecedence(OpAmp) == RhsPrecedence(OpAmpAmp) == AND_PRECEDENCE
  {}

  lemma MiddleLevels()
    ensures RhsPrecedence(OpEqEq) == RhsPrecedence(OpBangEq) == EQUALITY_PRECEDENCE
    ensures RhsPrecedence(OpLe) == RhsPrecedence(OpLeEq) == RELATIONAL_PRECEDENCE
    ensures RhsPrecedence(OpGt) == RhsPrecedence(OpGtEq) == RELATIONAL_PRECEDENCE
  {}

  lemma TightLevels()
    ensures RhsPrecedence(OpShiftL) == RhsPrecedence(OpShiftR) == SHIFT_PRECEDENCE
    ensures RhsPrecedence(OpPlus) == RhsPrecedence(OpMinus) == ADDITIVE_PRECEDENCE
    ensures RhsPrecedence(OpColonColon) == RhsPrecedence(OpTilde) == ADDITIVE_PRECEDENCE
    ensures RhsPrecedence(OpStar) == RhsPrecedence(OpSlash) == RhsPrecedence(OpRem) == MULTIPLICATIVE_PRECEDENCE
    ensures RhsPrecedence(OpQMarkQMark) == DOUBLE_QMARK_PRECEDENCE
  {}

  lemma LevelIsBinary(i: nat, k: Kind)
    requires InLevel(k, i)
    ensures IsBinary(k)
  {
    hide RhsPrecedence;
  }

  lemma TakesIs(k: Kind, min: nat)
    requires 0 < RhsPrecedence(k)
    ensures var prec := RhsPrecedence(k); Takes(k, min, TOP) <==> min < prec || (min == prec && k == OpColonColon)
  {
    hide RhsPrecedence;
  }

  lemma Ordered(i: nat, j: nat)
    requires i < j < 10
    ensures PrecedenceOf(i) < PrecedenceOf(j)
  {}

  lemma EndStops()
    ensures Peek([]) == End && IsOpen(End) && forall min: nat :: !Takes(End, min, TOP)
  {}

  /** An operator whose right operand is an expression. */
  predicate IsBinary(k: Kind) {
    && k != SepOpenParen && k != OpParenParen && k != OpSemi && k != OpQMark && k != OpDot && k != SepOpenSquare
    && k != Keyword(Is) && k != Keyword(As) && k != OpEq
  }

  /** An identifier before such a token declares nothing. */
  predicate IsOpen(k: Kind) {
    k != OpEq
  }

  /** An expression that starts with an identifier. */
  lemma Begins(ts: seq<Token>, a: Token, rest: seq<Token>, depth: nat, min: nat)
    requires depth < SHALLOW + 5 && IsId(a) && Starts(ts, a, rest) && IsOpen(Peek(rest))
    ensures ParseExpr(ts, depth, min, TOP) == ParseLoop(IdExpr(a), rest, depth + 1, min, TOP)
  {
    assert Rest(ts) == rest && Next(ts) == a;
    hide ParseLoop;
    assert ParseId(ts, depth + 1) == (IdExpr(a), rest);
    assert ParsePrimary(ts, depth + 1) == (IdExpr(a), rest);
    assert ParseLhs(ts, depth + 1) == (IdExpr(a), rest);
  }

  /** An identifier behind which no operator is taken. */
  lemma Ends(ts: seq<Token>, a: Token, rest: seq<Token>, depth: nat, min: nat)
    requires depth < SHALLOW + 5 && IsId(a) && Starts(ts, a, rest)
    requires IsOpen(Peek(rest)) && !Takes(Peek(rest), min, TOP)
    ensures ParseExpr(ts, depth, min, TOP) == (IdExpr(a), rest)
  {
    hide ParseExpr, Starts, Takes, IsOpen;
    Begins(ts, a, rest, depth, min);
    Stops(IdExpr(a), rest, depth + 1, min);
  }

  lemma Stops(lhs: Node, ts: seq<Token>, depth: nat, min: nat)
    requires !Takes(Peek(ts), min, TOP)
    ensures ParseLoop(lhs, ts, depth, min, TOP) == (lhs, ts)
  {
    hide ParseInfix;
  }

  lemma Joins(ts: seq<Token>, lhs: Node, o: Token, more: seq<Token>, rhs: Node, rest: seq<Token>, depth: nat, min: nat)
    requires Starts(ts, o, more) && IsBinary(o.kind) && Takes(o.kind, min, TOP)
    requires ParseExpr(more, depth, RhsPrecedence(o.kind), TOP) == (rhs, rest)
    ensures ParseLoop(lhs, ts, depth, min, TOP) == ParseLoop(Binary(lhs, o, rhs), rest, depth, min, TOP)
  {
    assert Rest(ts) == more && Next(ts) == o;
    hide ParseExpr;
    assert ParseInfix(lhs, ts, depth) == (Binary(lhs, o, rhs), rest);
  }

  /** Two operands and an infix operator that nothing behind them takes apart. */
  lemma InfixOpens(
    ts: seq<Token>, a: Token, o: Token, b: Token, rest1: seq<Token>, rest2: seq<Token>, rest: seq<Token>,
    depth: nat, min: nat)
    requires depth < SHALLOW + 4 && IsId(a) && IsId(b) && IsBinary(o.kind) && Takes(o.kind, min, TOP)
    requires Starts(ts, a, rest1) && Starts(rest1, o, rest2) && Starts(rest2, b, rest)
    requires IsOpen(Peek(rest)) && !Takes(Peek(rest), RhsPrecedence(o.kind), TOP)
    ensures ParseExpr(ts, depth, min, TOP) == ParseLoop(Binary(IdExpr(a), o, IdExpr(b)), rest, depth + 1, min, TOP)
  {
    hide Parse, IsOpen, ParseExpr, ParseLoop, Takes, Starts, Peek, RhsPrecedence, IsBinary, InLevel, PrecedenceOf;
    PeekIs(rest1, o, rest2);
    NotAssign(o.kind);
    Ends(rest2, b, rest, depth + 1, RhsPrecedence(o.kind));
    Joins(rest1, IdExpr(a), o, rest2, IdExpr(b), rest, depth + 1, min);
    Begins(ts, a, rest1, depth, min);
  }

  lemma PeekIs(ts: seq<Token>, t: Token, rest: seq<Token>)
    requires Starts(ts, t, rest)
    ensures Peek(ts) == t.kind
  {}

  lemma NotAssign(k: Kind)
    requires IsBinary(k)
    ensures IsOpen(k)
  {}

  lemma PrefixIs(k: Kind)
    requires k in PREFIXES
    ensures IsOperator(k) && LhsPrecedence(k) == UNARY_PRECEDENCE
  {}

  /** An operator before an expression. */
  lemma Prefixes(ts: seq<Token>, u: Token, more: seq<Token>, operand: Node, rest: seq<Token>, depth: nat, min: nat)
    requires depth < SHALLOW && Starts(ts, u, more) && IsOperator(u.kind) && LhsPrecedence(u.kind) == UNARY_PRECEDENCE
    requires ParseExpr(more, depth + 1, UNARY_PRECEDENCE, TOP) == (operand, rest)
    ensures ParseExpr(ts, depth, min, TOP) == ParseLoop(Unary(u, operand), rest, depth + 1, min, TOP)
  {
    assert Rest(ts) == more && Next(ts) == u;
    hide ParseLoop, IsOperator, LhsPrecedence;
    PrefixRead(ts, u, more, operand, rest, depth + 1);
  }

  lemma PrefixRead(ts: seq<Token>, u: Token, more: seq<Token>, operand: Node, rest: seq<Token>, depth: nat)
    requires Starts(ts, u, more) && IsOperator(u.kind) && LhsPrecedence(u.kind) == UNARY_PRECEDENCE
    requires ParseExpr(more, depth, UNARY_PRECEDENCE, TOP) == (operand, rest)
    ensures ParseLhs(ts, depth) == (Unary(u, operand), rest)
  {
    assert Rest(ts) == more && Next(ts) == u;
    hide ParseExpr, IsOperator, LhsPrecedence;
  }

  lemma Declares(
    ts: seq<Token>, x: Token, rest1: seq<Token>, eq: Token, more: seq<Token>, init: Node, rest: seq<Token>,
    depth: nat, min: nat)
    requires depth < SHALLOW && IsId(x) && eq.kind == OpEq && Starts(ts, x, rest1) && Starts(rest1, eq, more)
    requires ParseExpr(more, depth + 1, ASSIGNMENT_PRECEDENCE, TOP) == (init, rest)
    ensures ParseExpr(ts, depth, min, TOP) == ParseLoop(ConstDecl(x, eq, init), rest, depth + 1, min, TOP)
  {
    assert Rest(ts) == rest1 && Rest(rest1) == more && Next(ts) == x && Next(rest1) == eq;
    assert ParseId(ts, depth + 1) == (ConstDecl(x, eq, init), rest);
    hide ParseLoop;
    assert ParsePrimary(ts, depth + 1) == ParseId(ts, depth + 1);
    assert ParseLhs(ts, depth + 1) == ParsePrimary(ts, depth + 1);
  }

  lemma PostfixTaken(post: seq<Token>, min: nat)
    requires IsPostfix(post) && min < FIELD_PRECEDENCE
    ensures IsOpen(Peek(post)) && Takes(Peek(post), min, TOP)
  {}

  lemma PostfixJoins(lhs: Node, post: seq<Token>, rest: seq<Token>, depth: nat, min: nat)
    requires depth < SHALLOW + 5 && IsPostfix(post) && Takes(Peek(post), min, TOP)
    ensures ParseLoop(lhs, post + rest, depth, min, TOP) == ParseLoop(Applied(lhs, post), rest, depth, min, TOP)
  {
    var ts := post + rest;
    PostfixRead(lhs, post, rest, depth);
    assert Peek(ts) == Peek(post);
    hide ParseInfix, Takes, Applied;
  }

  lemma PostfixRead(lhs: Node, post: seq<Token>, rest: seq<Token>, depth: nat)
    requires depth < SHALLOW + 5 && IsPostfix(post)
    ensures ParseInfix(lhs, post + rest, depth) == (Applied(lhs, post), rest)
  {
    hide ParseIndex, ParseArgs, ParseTypeTest;
    var ts := post + rest;
    assert Next(ts) == post[0];
    if post[0].kind == OpDot {
      assert Rest(ts) == [post[1]] + rest && Rest(Rest(ts)) == rest;
    } else if post[0].kind == SepOpenSquare {
      IndexRead(lhs, post, rest, depth);
    } else {
      CallRead(lhs, post, rest, depth);
    }
  }

  lemma CallRead(lhs: Node, post: seq<Token>, rest: seq<Token>, depth: nat)
    requires depth < SHALLOW + 5 && IsPostfix(post) && (post[0].kind == OpParenParen || post[0].kind == SepOpenParen)
    ensures ParseCall([], lhs, post + rest, depth) == (Applied(lhs, post), rest)
  {
    var ts := post + rest;
    assert Next(ts) == post[0];
    if post[0].kind == OpParenParen {
      assert Rest(ts) == rest;
    } else {
      assert Rest(ts) == [post[1]] + rest && Rest(Rest(ts)) == rest;
      assert ParseArgs(Rest(ts), depth, SepCloseParen) == Args([], [], false, Rest(ts));
    }
  }

  lemma IndexRead(lhs: Node, post: seq<Token>, rest: seq<Token>, depth: nat)
    requires depth < SHALLOW + 5 && IsPostfix(post) && post[0].kind == SepOpenSquare
    ensures ParseIndex(lhs, post + rest, depth) == (Applied(lhs, post), rest)
  {
    var ts, inside, close := post + rest, [post[1]] + ([post[2]] + rest), [post[2]] + rest;
    assert Next(ts) == post[0] && Rest(ts) == inside && Next(close) == post[2] && Rest(close) == rest;
    OneArgument(inside, post[1], close, depth);
    hide ParseArgs;
  }

  lemma OneArgument(ts: seq<Token>, a: Token, close: seq<Token>, depth: nat)
    requires depth < SHALLOW + 5 && Starts(ts, a, close) && IsId(a) && close != [] && Peek(close) == SepCloseSquare
    ensures ParseArgs(ts, depth, SepCloseSquare) == Args([IdExpr(a)], [], false, close)
  {
    assert !Takes(SepCloseSquare, 0, TOP);
    Ends(ts, a, close, depth, 0);
    hide ParseExpr, Takes;
    assert ParseArgs(close, depth, SepCloseSquare) == Args([], [], false, close);
    assert [IdExpr(a)] + [] == [IdExpr(a)];
  }

  lemma TestTaken(test: seq<Token>, min: nat)
    requires IsTest(test)
    ensures IsOpen(Peek(test)) && (Takes(Peek(test), min, TOP) <==> min < TYPE_TEST_PRECEDENCE)
  {}

  lemma TestJoins(lhs: Node, test: seq<Token>, rest: seq<Token>, depth: nat, min: nat)
    requires IsTest(test) && Takes(Peek(test), min, TOP)
    ensures ParseLoop(lhs, test + rest, depth, min, TOP) == ParseLoop(Tested(lhs, test), rest, depth, min, TOP)
  {
    hide Takes, Tested, ParseTypeTest, IsTest;
    TestStarts(test, rest);
    TestRead(lhs, test, rest);
  }

  lemma TestStarts(test: seq<Token>, rest: seq<Token>)
    requires IsTest(test)
    ensures Peek(test + rest) == Peek(test) && (Peek(test) == Keyword(Is) || Peek(test) == Keyword(As))
  {}

  lemma TestRead(lhs: Node, test: seq<Token>, rest: seq<Token>)
    requires IsTest(test)
    ensures ParseTypeTest(lhs, test + rest) == (Tested(lhs, test), rest)
  {
    var ts := test + rest;
    assert Next(ts) == test[0] && Next(Rest(ts)) == test[1];
    if test[0].kind == Keyword(Is) {
      assert Rest(Rest(ts)) == rest && test[2..] == [];
    } else {
      assert Rest(Rest(ts)) == [test[2]] + rest && Rest(Rest(Rest(ts))) == rest && test[2..] == [test[2]];
    }
  }

  /** Where `?`, `:` and `;` are taken. */
  lemma LooseTokens(min: nat)
    requires min >= GROUPING_PRECEDENCE
    ensures Takes(OpQMark, min, TOP) <==> min < CONDITIONAL_PRECEDENCE
    ensures !Takes(SepColon, min, TOP) && !Takes(OpSemi, min, TOP)
    ensures Takes(OpQMark, 0, TOP) && Takes(OpSemi, 0, TOP)
    ensures IsOpen(OpQMark) && IsOpen(SepColon) && IsOpen(OpSemi)
  {}

  lemma ConditionalJoins(
    ts: seq<Token>, lhs: Node, q: Token, more: seq<Token>, a: Node, behind: seq<Token>, s: Token, more2: seq<Token>,
    b: Node, rest: seq<Token>, depth: nat, min: nat)
    requires Starts(ts, q, more) && Starts(behind, s, more2)
    requires q.kind == OpQMark && s.kind == SepColon && Takes(OpQMark, min, TOP)
    requires ParseExpr(more, depth, GROUPING_PRECEDENCE, TOP) == (a, behind)
    requires ParseExpr(more2, depth, GROUPING_PRECEDENCE, TOP) == (b, rest)
    ensures ParseLoop(lhs, ts, depth, min, TOP) == ParseLoop(Conditional(lhs, q, a, s, b), rest, depth, min, TOP)
  {
    assert Rest(ts) == more && Next(ts) == q && Next(behind) == s && Rest(behind) == more2;
    hide ParseExpr, Takes;
    assert ParseConditional(lhs, ts, depth) == (Conditional(lhs, q, a, s, b), rest);
    assert ParseInfix(lhs, ts, depth) == ParseConditional(lhs, ts, depth);
  }

  /** A group of two. */
  lemma GroupJoins(ts: seq<Token>, lhs: Node, semi: Token, more: seq<Token>, sub: Node, depth: nat, min: nat)
    requires Starts(ts, semi, more) && semi.kind == OpSemi && Takes(OpSemi, min, TOP)
    requires ParseExpr(more, depth, GROUPING_PRECEDENCE, TOP) == (sub, [])
    ensures ParseLoop(lhs, ts, depth, min, TOP) == ParseLoop(Group([lhs, sub], [semi]), [], depth, min, TOP)
  {
    assert Rest(ts) == more && Next(ts) == semi && RhsPrecedence(OpSemi) == GROUPING_PRECEDENCE;
    hide ParseExpr, Takes, RhsPrecedence;
    assert ParseGroup([], depth, GROUPING_PRECEDENCE) == ([], [], []);
    assert ParseGroup(ts, depth, GROUPING_PRECEDENCE) == ([sub] + [], [semi] + [], []);
    assert [lhs] + ([sub] + []) == [lhs, sub] && [semi] + [] == [semi];
    assert ParseInfix(lhs, ts, depth) == (Group([lhs, sub], [semi]), []);
  }

  // ----- Nesting -----

  /** An identifier in n pairs of parentheses, and something behind it. */
  function Parens(open: Token, a: Token, close: Token, n: nat, rest: seq<Token>): seq<Token> {
    if n == 0 then [a] + rest else [open] + Parens(open, a, close, n - 1, [close] + rest)
  }

  function ParenNode(open: Token, a: Token, close: Token, n: nat): Node {
    if n == 0 then IdExpr(a) else Paren(open, ParenNode(open, a, close, n - 1), close)
  }

  /** Ninety-nine expressions can stand inside each other. */
  lemma {:induction false} NestingLaw(
    open: Token, a: Token, close: Token, n: nat, rest: seq<Token>, depth: nat)
    requires open.kind == SepOpenParen && IsId(a) && close.kind == SepCloseParen && depth + n < 99
    requires rest == [] || rest[0].kind == SepCloseParen
    ensures Parse(Parens(open, a, close, n, rest), depth) == (ParenNode(open, a, close, n), rest)
    decreases n
  {
    var ts := Parens(open, a, close, n, rest);
    assert !Takes(Peek(rest), 0, TOP);
    hide Takes;
    assert Rest([a] + rest) == rest;
    if n == 0 {
      assert ParseId(ts, depth + 1) == (IdExpr(a), rest);
      assert ParsePrimary(ts, depth + 1) == (IdExpr(a), rest);
      assert ParseLhs(ts, depth + 1) == (IdExpr(a), rest);
    } else {
      var inner := Parens(open, a, close, n - 1, [close] + rest);
      assert Rest(ts) == inner && Next(ts) == open && Rest([close] + rest) == rest;
      NestingLaw(open, a, close, n - 1, [close] + rest, depth + 1);
      hide Parens, ParseExpr;
      ParenRead(ts, open, inner, ParenNode(open, a, close, n - 1), close, rest, depth + 1);
    }
    hide ParseLhs;
    ExprIsLhs(ts, depth, ParenNode(open, a, close, n), rest);
  }

  lemma ParenRead(
    ts: seq<Token>, open: Token, inner: seq<Token>, e: Node, close: Token, rest: seq<Token>, depth: nat)
    requires ts != [] && Next(ts) == open && Rest(ts) == inner && open.kind == SepOpenParen && close.kind == SepCloseParen
    requires ParseExpr(inner, depth, 0, TOP) == (e, [close] + rest)
    ensures ParseLhs(ts, depth) == (Paren(open, e, close), rest)
  {
    hide ParseExpr;
    assert Rest([close] + rest) == rest;
  }

  lemma ExprIsLhs(ts: seq<Token>, depth: nat, e: Node, rest: seq<Token>)
    requires depth < 99 && ParseLhs(ts, depth + 1) == (e, rest) && !Takes(Peek(rest), 0, TOP)
    ensures Parse(ts, depth) == (e, rest)
  {
    hide ParseLhs, Takes;
    Stops(e, rest, depth + 1, 0);
    hide ParseLoop;
  }

  /** The hundredth is an error. */
  lemma TooDeep(ts: seq<Token>, depth: nat)
    requires depth >= 99
    ensures Parse(ts, depth) == (Error([Next(ts)], []), Rest(ts))
  {}
}
