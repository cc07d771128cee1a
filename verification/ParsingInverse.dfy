/** The parser inverts the token yield of canonical trees, and returns nothing else without an error. */
module ParsingInverse {
  import opened Parsing

  // ----- Yields -----

  function Yield(t: Node): seq<Token>
    decreases t, 0
  {
    match t
    case LitExpr(lit) => [lit]
    case IdExpr(id) => [id]
    case ConstDecl(id, eq, init) => [id, eq] + Yield(init)
    case Unary(op, operand) => [op] + Yield(operand)
    case Binary(lhs, op, rhs) => Yield(lhs) + [op] + Yield(rhs)
    case Call(modifiers, lhs, open, args, commas, close) =>
      modifiers + Yield(lhs) + [open] + if open.kind == OpParenParen then [] else YieldArgs(args, commas) + [close]
    case Index(lhs, open, args, commas, close) => Yield(lhs) + [open] + (YieldArgs(args, commas) + [close])
    case Field(lhs, dot, name) => Yield(lhs) + [dot, name]
    case TypeTest(lhs, kw, typ, bind) => Yield(lhs) + [kw, typ] + bind
    case Conditional(cond, qmark, a, colon, b) => Yield(cond) + [qmark] + (Yield(a) + ([colon] + Yield(b)))
    case Group(subs, semis) => if subs == [] then [] else Yield(subs[0]) + YieldMore(subs[1..], semis)
    case Paren(open, e, close) => [open] + (Yield(e) + [close])
    case Switch(clauses, other) => YieldAll(clauses) + YieldAll(other)
    case SwitchIf(kw, cond, arrow, branch) => [kw] + (Yield(cond) + ([arrow] + Yield(branch)))
    case SwitchElse(kw, arrow, branch) => [kw, arrow] + Yield(branch)
    case Error(tokens, _) => tokens
  }

  /** Arguments with commas between them. */
  function YieldArgs(args: seq<Node>, commas: seq<Token>): seq<Token>
    decreases args, 0
  {
    if args == [] then []
    else if commas == [] then Yield(args[0])
    else Yield(args[0]) + ([commas[0]] + YieldArgs(args[1..], commas[1..]))
  }

  /** Elements of a group, each after its semicolon. */
  function YieldMore(subs: seq<Node>, semis: seq<Token>): seq<Token>
    decreases subs, 0
  {
    if subs == [] || semis == [] then []
    else [semis[0]] + (Yield(subs[0]) + YieldMore(subs[1..], semis[1..]))
  }

  function YieldAll(ts: seq<Node>): seq<Token>
    decreases ts, 0
  {
    if ts == [] then [] else Yield(ts[0]) + YieldAll(ts[1..])
  }

  // ----- Canonical trees -----

  /** Reading on at k would make an expression at the right edge of t longer. */
  predicate Absorbs(t: Node, k: Kind)
    decreases t, 0
  {
    match t
    case IdExpr(id) => id.kind == Identifier && k == OpEq
    case ConstDecl(_, _, init) => Takes(k, ASSIGNMENT_PRECEDENCE, TOP) || Absorbs(init, k)
    case Unary(op, operand) => Takes(k, LhsPrecedence(op.kind), TOP) || Absorbs(operand, k)
    case Binary(_, op, rhs) => Takes(k, RhsPrecedence(op.kind), TOP) || Absorbs(rhs, k)
    case Conditional(_, _, _, _, b) => Takes(k, GROUPING_PRECEDENCE, TOP) || Absorbs(b, k)
    case Group(subs, _) => k == OpSemi || Takes(k, GROUPING_PRECEDENCE, TOP) || LastAbsorbs(subs, k)
    case Switch(clauses, other) =>
      if other == [] then k == Keyword(If) || k == Keyword(Else) || LastAbsorbs(clauses, k) else LastAbsorbs(other, k)
    case SwitchIf(_, _, _, branch) => Takes(k, 0, TOP) || Absorbs(branch, k)
    case SwitchElse(_, _, branch) => Takes(k, 0, TOP) || Absorbs(branch, k)
    case _ => false
  }

  predicate LastAbsorbs(ts: seq<Node>, k: Kind)
    decreases ts, 0
  {
    ts != [] && Absorbs(ts[|ts| - 1], k)
  }

  /** Every operator of t that is not inside an operand lies between the two precedences. */
  predicate Level(t: Node, min: nat, max: nat)
    decreases t, 0
  {
    match t
    case Binary(lhs, op, _) => Takes(op.kind, min, max) && Level(lhs, min, max)
    case Call(modifiers, lhs, open, _, _, _) => modifiers == [] ==> Takes(open.kind, min, max) && Level(lhs, min, max)
    case Index(lhs, open, _, _, _) => Takes(open.kind, min, max) && Level(lhs, min, max)
    case Field(lhs, dot, _) => Takes(dot.kind, min, max) && Level(lhs, min, max)
    case TypeTest(lhs, kw, _, _) => Takes(kw.kind, min, max) && Level(lhs, min, max)
    case Conditional(cond, qmark, _, _, _) => Takes(qmark.kind, min, max) && Level(cond, min, max)
    case Group(subs, semis) =>
      subs != [] && semis != [] ==> Takes(semis[0].kind, min, max) && Level(subs[0], min, max)
    case _ => true
  }

  /** Operators with an expression on either side. */
  predicate IsPlainInfix(k: Kind) {
    && RhsPrecedence(k) != 0 && k != SepOpenParen && k != OpParenParen && k != SepOpenSquare
    && k != OpSemi && k != OpQMark && k != OpDot && !k.Keyword?
  }

  /** An operand, parsed as an expression of its own inside an expression at this depth. */
  predicate Operand(t: Node, depth: nat, min: nat, max: nat)
    decreases t, 1
  {
    depth + 1 < MAX_RECURSION_DEPTH && Canonical(t, depth + 1) && Level(t, min, max)
  }

  predicate Operands(ts: seq<Node>, depth: nat, min: nat)
    decreases ts, 1
  {
    forall t | t in ts :: Operand(t, depth, min, TOP)
  }

  /** An expression at the given depth that the grammar admits: each left operand ends before the
      operator that follows it, and each right operand has operators of higher precedence only. */
  predicate Canonical(t: Node, depth: nat)
    decreases t, 0
  {
    match t
    case LitExpr(lit) => lit.kind == Literal
    case IdExpr(id) => id.kind == Identifier || id.kind == Keyword(Self)
    case ConstDecl(id, eq, init) => IsIdToken(id) && eq.kind == OpEq && Operand(init, depth, ASSIGNMENT_PRECEDENCE, TOP)
    case Unary(op, operand) => LhsPrecedence(op.kind) != 0 && Operand(operand, depth, LhsPrecedence(op.kind), TOP)
    case Binary(lhs, op, rhs) =>
      && IsPlainInfix(op.kind) && Canonical(lhs, depth) && !Absorbs(lhs, op.kind)
      && Operand(rhs, depth, RhsPrecedence(op.kind), TOP)
    case Call(modifiers, lhs, open, args, commas, close) =>
      && (if modifiers == [] then Canonical(lhs, depth)
          else |modifiers| == 1 && (modifiers[0].kind == Keyword(Fork) || modifiers[0].kind == Keyword(Lazy))
               && Operand(lhs, depth, 0, CALL_PRECEDENCE))
      && !Absorbs(lhs, open.kind) && ValidParentheses(open, close) && Operands(args, depth, 0)
      && Separated(|args|, commas)
      && (open.kind == OpParenParen ==> args == [] && close == open)
    case Index(lhs, open, args, commas, close) =>
      && Canonical(lhs, depth) && !Absorbs(lhs, open.kind)
      && open.kind == SepOpenSquare && close.kind == SepCloseSquare
      && args != [] && Operands(args, depth, 0) && Separated(|args|, commas)
    case Field(lhs, dot, name) =>
      Canonical(lhs, depth) && !Absorbs(lhs, dot.kind) && dot.kind == OpDot && name.kind == Identifier
    case TypeTest(lhs, kw, typ, bind) =>
      && Canonical(lhs, depth) && !Absorbs(lhs, kw.kind) && ValidType(typ)
      && (if kw.kind == Keyword(As) then |bind| == 1 && IsIdToken(bind[0]) else kw.kind == Keyword(Is) && bind == [])
    case Conditional(cond, qmark, a, colon, b) =>
      && Canonical(cond, depth) && !Absorbs(cond, qmark.kind) && qmark.kind == OpQMark && colon.kind == SepColon
      && Operand(a, depth, GROUPING_PRECEDENCE, TOP) && Operand(b, depth, GROUPING_PRECEDENCE, TOP)
    case Group(subs, semis) =>
      && |subs| >= 2 && |semis| == |subs| - 1 && (forall s | s in semis :: s.kind == OpSemi)
      && Canonical(subs[0], depth) && !Absorbs(subs[0], OpSemi)
      && Elements(subs[1..], depth)
    case Paren(open, e, close) => open.kind == SepOpenParen && close.kind == SepCloseParen && Operand(e, depth, 0, TOP)
    case Switch(clauses, other) =>
      && clauses != [] && |other| <= 1 && Clauses(clauses, depth, if other == [] then End else Keyword(Else))
      && (other != [] ==> other[0].SwitchElse? && CanonicalElse(other[0], depth))
    case _ => false
  }

  predicate CanonicalElse(t: Node, depth: nat)
    requires t.SwitchElse?
    decreases t, 0
  {
    t.kw.kind == Keyword(Else) && t.arrow.kind == SepArrow && Operand(t.branch, depth, 0, TOP)
  }

  predicate CanonicalIf(t: Node, depth: nat)
    requires t.SwitchIf?
    decreases t, 0
  {
    && t.kw.kind == Keyword(If) && t.arrow.kind == SepArrow
    && Operand(t.cond, depth, 0, TOP) && Operand(t.branch, depth, 0, TOP)
  }

  /** Clauses of a switch; each ends before what follows it. */
  predicate Clauses(ts: seq<Node>, depth: nat, next: Kind)
    decreases ts, 1
  {
    ts == [] ||
    (ts[0].SwitchIf? && CanonicalIf(ts[0], depth)
     && (if |ts| == 1 then next != End ==> !Absorbs(ts[0], next) else !Absorbs(ts[0], Keyword(If)))
     && Clauses(ts[1..], depth, next))
  }

  /** Elements of a group; each ends before the semicolon that follows it. */
  predicate Elements(ts: seq<Node>, depth: nat)
    decreases ts, 1
  {
    ts == [] ||
    (Operand(ts[0], depth, GROUPING_PRECEDENCE, TOP) && (|ts| > 1 ==> !Absorbs(ts[0], OpSemi)) && Elements(ts[1..], depth))
  }

  predicate Separated(n: nat, commas: seq<Token>) {
    |commas| == (if n == 0 then 0 else n - 1) && forall c | c in commas :: c.kind == SepComma
  }

  // ----- First tokens -----

  /** Tokens that end an operand wherever they come. */
  predicate IsCloser(k: Kind) {
    k == SepCloseParen || k == SepCloseSquare || k == SepComma || k == SepColon || k == SepArrow || k == End
  }

  lemma {:induction false} ClosersAreNotAbsorbed(t: Node, k: Kind)
    requires IsCloser(k)
    ensures !Absorbs(t, k)
    decreases t
  {
    CloserIsNotTaken(k);
    hide Takes, RhsPrecedence, LhsPrecedence, IsCloser;
    match t
    case ConstDecl(_, _, init) => ClosersAreNotAbsorbed(init, k);
    case Unary(_, operand) => ClosersAreNotAbsorbed(operand, k);
    case Binary(_, op, rhs) => ClosersAreNotAbsorbed(rhs, k);
    case Conditional(_, _, _, _, b) => ClosersAreNotAbsorbed(b, k);
    case Group(subs, _) => if subs != [] { ClosersAreNotAbsorbed(subs[|subs| - 1], k); }
    case Switch(clauses, other) =>
      if clauses != [] { ClosersAreNotAbsorbed(clauses[|clauses| - 1], k); }
      if other != [] { ClosersAreNotAbsorbed(other[|other| - 1], k); }
    case SwitchIf(_, _, _, branch) => ClosersAreNotAbsorbed(branch, k);
    case SwitchElse(_, _, branch) => ClosersAreNotAbsorbed(branch, k);
    case _ =>
  }

  lemma CloserIsNotTaken(k: Kind)
    requires IsCloser(k)
    ensures forall min, max :: !Takes(k, min, max)
    ensures k != OpEq && k != OpSemi && k != Keyword(If) && k != Keyword(Else)
  {}

  /** A canonical tree has tokens and does not start with one that ends an operand. */
  lemma {:induction false} Starts(t: Node, c: nat)
    requires Canonical(t, c)
    ensures Yield(t) != [] && !IsCloser(Yield(t)[0].kind)
    decreases t
  {
    hide RhsPrecedence, Takes, Absorbs, Operand, Operands, Elements, Clauses, Separated, YieldArgs, YieldMore, YieldAll, IsCloser, ValidType, ValidParentheses;
    match t
    case Binary(lhs, _, _) => Starts(lhs, c);
    case Call(modifiers, lhs, _, _, _, _) => if modifiers == [] { Starts(lhs, c); } else { NoCloser(modifiers[0].kind); }
    case Index(lhs, _, _, _, _) => Starts(lhs, c);
    case Field(lhs, _, _) => Starts(lhs, c);
    case TypeTest(lhs, _, _, _) => Starts(lhs, c);
    case Conditional(cond, _, _, _, _) => Starts(cond, c);
    case Group(subs, _) => Starts(subs[0], c);
    case Switch(clauses, _) => SwitchStarts(t, c);
    case SwitchIf(_, _, _, _) =>
    case SwitchElse(_, _, _) =>
    case Error(_, _) =>
    case _ => StartsAlone(t, c);
  }

  lemma StartsAlone(t: Node, c: nat)
    requires Canonical(t, c) && (t.LitExpr? || t.IdExpr? || t.ConstDecl? || t.Unary? || t.Paren?)
    ensures Yield(t) != [] && !IsCloser(Yield(t)[0].kind)
  {
    hide Operand, IsCloser;
    match t
    case LitExpr(lit) => NoCloser(lit.kind);
    case IdExpr(id) => NoCloser(id.kind);
    case ConstDecl(id, _, _) => NoCloser(id.kind);
    case Unary(op, _) => NoCloser(op.kind);
    case Paren(open, _, _) => NoCloser(open.kind);
  }

  lemma NoCloser(k: Kind)
    requires k.Keyword? || k == Literal || k == Identifier || k == Discard || k == SepOpenParen || LhsPrecedence(k) != 0
    ensures !IsCloser(k)
  {}

  lemma SwitchStarts(t: Node, c: nat)
    requires t.Switch? && Canonical(t, c)
    ensures Yield(t) != [] && !IsCloser(Yield(t)[0].kind)
  {
    hide Operand;
    ClauseStarts(t.clauses, c);
  }

  lemma ClauseStarts(ts: seq<Node>, c: nat)
    requires ts != [] && ts[0].SwitchIf? && CanonicalIf(ts[0], c)
    ensures YieldAll(ts) != [] && YieldAll(ts)[0] == ts[0].kw && ts[0].kw.kind == Keyword(If)
  {
    assert Yield(ts[0])[0] == ts[0].kw;
  }

  // ----- The parser inverts the yield -----

  /** An operand is parsed up to a token that does not continue it. */
  lemma {:induction false} OperandParses(t: Node, c: nat, min: nat, max: nat, rest: seq<Token>)
    requires Operand(t, c, min, max) && !Absorbs(t, Peek(rest)) && !Takes(Peek(rest), min, max)
    ensures ParseExpr(Yield(t) + rest, c, min, max) == (t, rest)
    decreases t, 4
  {
    Parses(t, c + 1, rest, min, max);
  }

  lemma OperandClosed(t: Node, c: nat, min: nat, rest: seq<Token>)
    requires Operand(t, c, min, TOP) && IsCloser(Peek(rest))
    ensures ParseExpr(Yield(t) + rest, c, min, TOP) == (t, rest)
    decreases t, 5
  {
    ClosersAreNotAbsorbed(t, Peek(rest));
    OperandParses(t, c, min, TOP, rest);
  }

  /** Reading the tokens of a canonical tree brings the parser to where it goes on with the whole tree
      as its left operand. */
  lemma {:induction false} Parses(t: Node, c: nat, rest: seq<Token>, min: nat, max: nat)
    requires Canonical(t, c) && Level(t, min, max) && !Absorbs(t, Peek(rest))
    ensures var (lhs, ts) := ParseLhs(Yield(t) + rest, c);
            ParseLoop(lhs, ts, c, min, max) == ParseLoop(t, rest, c, min, max)
    decreases t, 3
  {
    match t
    case Binary(_, _, _) => ParsesBinary(t, c, rest, min, max);
    case Call(modifiers, _, _, _, _, _) =>
      if modifiers == [] { ParsesCall(t, c, rest, min, max); } else { ParsesForked(t, c, rest); }
    case Index(_, _, _, _, _) => ParsesIndex(t, c, rest, min, max);
    case Field(_, _, _) => ParsesField(t, c, rest, min, max);
    case TypeTest(_, _, _, _) => ParsesTypeTest(t, c, rest, min, max);
    case Conditional(_, _, _, _, _) => ParsesConditional(t, c, rest, min, max);
    case Group(_, _) => ParsesGroup(t, c, rest, min, max);
    case SwitchIf(_, _, _, _) =>
    case SwitchElse(_, _, _) =>
    case Error(_, _) =>
    case _ => ParsesStart(t, c, rest);
  }

  /** Trees that do not start with a left operand. */
  lemma {:induction false} ParsesStart(t: Node, c: nat, rest: seq<Token>)
    requires Canonical(t, c) && !Absorbs(t, Peek(rest))
    requires t.LitExpr? || t.IdExpr? || t.ConstDecl? || t.Unary? || t.Paren? || t.Switch?
    ensures ParseLhs(Yield(t) + rest, c) == (t, rest)
    decreases t, 2
  {
    hide RhsPrecedence, Takes, Level, Operands, ParseClauses, ParseCall, ParseLoop;
    var ts := Yield(t) + rest;
    match t
    case LitExpr(_) => assert ts[1..] == rest;
    case IdExpr(id) =>
      assert ts[1..] == rest && Next(ts) == id;
      assert id.kind == Identifier ==> ParseId(ts, c) == (t, rest);
    case ConstDecl(_, _, _) => ParsesDecl(t, c, rest);
    case Unary(op, operand) =>
      assert ts[1..] == Yield(operand) + rest;
      OperandParses(operand, c, LhsPrecedence(op.kind), TOP, rest);
    case Paren(_, _, _) => ParsesParen(t, c, rest);
    case Switch(clauses, other) => ParsesSwitch(t, c, rest);
  }

  lemma {:induction false} ParsesDecl(t: Node, c: nat, rest: seq<Token>)
    requires t.ConstDecl? && Canonical(t, c) && !Absorbs(t, Peek(rest))
    ensures ParseLhs(Yield(t) + rest, c) == (t, rest)
    decreases t, 1
  {
    hide RhsPrecedence, Takes, ParseLoop, ParseExpr;
    var ts, y := Yield(t) + rest, Yield(t.init);
    assert Yield(t) == [t.id, t.eq] + y;
    hide Yield;
    assert ts[1..] == [t.eq] + (y + rest) && ts[1..][1..] == y + rest;
    OperandParses(t.init, c, ASSIGNMENT_PRECEDENCE, TOP, rest);
    hide Canonical, Absorbs, Operand;
    assert ParseId(ts, c) == (t, rest);
  }

  lemma {:induction false} ParsesParen(t: Node, c: nat, rest: seq<Token>)
    requires t.Paren? && Canonical(t, c)
    ensures ParseLhs(Yield(t) + rest, c) == (t, rest)
    decreases t, 1
  {
    hide RhsPrecedence, Takes, ParseLoop, ParseExpr;
    var ts, after, y := Yield(t) + rest, [t.close] + rest, Yield(t.expr);
    assert Yield(t) == [t.open] + (y + [t.close]);
    hide Yield;
    assert ts[1..] == y + after && after[1..] == rest;
    OperandClosed(t.expr, c, 0, after);
  }

  /** The parser, having read lhs, reads one more operator. */
  lemma {:induction false} ThenInfix(
    lhs: Node, t: Node, c: nat, tail: seq<Token>, rest: seq<Token>, min: nat, max: nat)
    requires Canonical(lhs, c) && Level(lhs, min, max) && !Absorbs(lhs, Peek(tail)) && lhs < t
    requires Takes(Peek(tail), min, max) && ParseInfix(lhs, tail, c) == (t, rest)
    ensures var (l, ts) := ParseLhs(Yield(lhs) + tail, c);
            ParseLoop(l, ts, c, min, max) == ParseLoop(t, rest, c, min, max)
    decreases lhs, 4
  {
    Parses(lhs, c, tail, min, max);
  }

  lemma {:induction false} ParsesBinary(t: Node, c: nat, rest: seq<Token>, min: nat, max: nat)
    requires t.Binary? && Canonical(t, c) && Level(t, min, max) && !Absorbs(t, Peek(rest))
    ensures var (l, ts) := ParseLhs(Yield(t) + rest, c);
            ParseLoop(l, ts, c, min, max) == ParseLoop(t, rest, c, min, max)
    decreases t, 2
  {
    hide RhsPrecedence, ParseLhs, ParseExpr, ParseInfix, ParseLoop, Takes, Yield, Canonical, Level, Absorbs, Operand;
    BinaryFacts(t, c, min, max, Peek(rest));
    var x, y := Yield(t.lhs), Yield(t.rhs);
    var tail := [t.op] + (y + rest);
    assert x + [t.op] + y + rest == x + tail;
    OperandParses(t.rhs, c, RhsPrecedence(t.op.kind), TOP, rest);
    ReadsBinary(t, c, tail, rest);
    ThenInfix(t.lhs, t, c, tail, rest, min, max);
  }

  lemma BinaryFacts(t: Node, c: nat, min: nat, max: nat, k: Kind)
    requires t.Binary?
    ensures Canonical(t, c) <==> IsPlainInfix(t.op.kind) && Canonical(t.lhs, c) && !Absorbs(t.lhs, t.op.kind)
                                 && Operand(t.rhs, c, RhsPrecedence(t.op.kind), TOP)
    ensures Level(t, min, max) <==> Takes(t.op.kind, min, max) && Level(t.lhs, min, max)
    ensures Absorbs(t, k) <==> Takes(k, RhsPrecedence(t.op.kind), TOP) || Absorbs(t.rhs, k)
    ensures Yield(t) == Yield(t.lhs) + [t.op] + Yield(t.rhs)
  {
    hide RhsPrecedence, Takes, IsPlainInfix, Operand;
  }

  lemma ReadsBinary(t: Node, c: nat, tail: seq<Token>, rest: seq<Token>)
    requires t.Binary? && IsPlainInfix(t.op.kind) && tail == [t.op] + (Yield(t.rhs) + rest)
    requires ParseExpr(Yield(t.rhs) + rest, c, RhsPrecedence(t.op.kind), TOP) == (t.rhs, rest)
    ensures ParseInfix(t.lhs, tail, c) == (t, rest)
  {
    hide ParseExpr, RhsPrecedence, Yield;
    assert tail[1..] == Yield(t.rhs) + rest;
  }

  lemma {:induction false} ParsesField(t: Node, c: nat, rest: seq<Token>, min: nat, max: nat)
    requires t.Field? && Canonical(t, c) && Level(t, min, max) && !Absorbs(t, Peek(rest))
    ensures var (l, ts) := ParseLhs(Yield(t) + rest, c);
            ParseLoop(l, ts, c, min, max) == ParseLoop(t, rest, c, min, max)
    decreases t, 2
  {
    hide RhsPrecedence, ParseLhs, ParseInfix, ParseLoop, Takes, Yield, Canonical, Level, Absorbs;
    FieldFacts(t, c, min, max);
    var x, tail := Yield(t.lhs), [t.dot, t.name] + rest;
    assert x + [t.dot, t.name] + rest == x + tail;
    ReadsField(t, c, tail, rest);
    ThenInfix(t.lhs, t, c, tail, rest, min, max);
  }

  lemma FieldFacts(t: Node, c: nat, min: nat, max: nat)
    requires t.Field?
    ensures Canonical(t, c) <==> Canonical(t.lhs, c) && !Absorbs(t.lhs, t.dot.kind) && t.dot.kind == OpDot && t.name.kind == Identifier
    ensures Level(t, min, max) <==> Takes(t.dot.kind, min, max) && Level(t.lhs, min, max)
    ensures Yield(t) == Yield(t.lhs) + [t.dot, t.name]
  {
    hide RhsPrecedence, Takes;
  }

  lemma ReadsField(t: Node, c: nat, tail: seq<Token>, rest: seq<Token>)
    requires t.Field? && t.dot.kind == OpDot && t.name.kind == Identifier && tail == [t.dot, t.name] + rest
    ensures ParseInfix(t.lhs, tail, c) == (t, rest)
  {
    hide RhsPrecedence;
    assert tail[1..] == [t.name] + rest && tail[1..][1..] == rest;
  }

  lemma {:induction false} ParsesTypeTest(t: Node, c: nat, rest: seq<Token>, min: nat, max: nat)
    requires t.TypeTest? && Canonical(t, c) && Level(t, min, max) && !Absorbs(t, Peek(rest))
    ensures var (l, ts) := ParseLhs(Yield(t) + rest, c);
            ParseLoop(l, ts, c, min, max) == ParseLoop(t, rest, c, min, max)
    decreases t, 2
  {
    hide RhsPrecedence, ParseLhs, ParseInfix, ParseLoop, Takes, Yield, Canonical, Level, Absorbs;
    TypeTestFacts(t, c, min, max);
    var x, tail := Yield(t.lhs), [t.kw, t.typ] + (t.bind + rest);
    assert x + [t.kw, t.typ] + t.bind + rest == x + tail;
    ReadsTypeTest(t, c, tail, rest);
    ThenInfix(t.lhs, t, c, tail, rest, min, max);
  }

  lemma TypeTestFacts(t: Node, c: nat, min: nat, max: nat)
    requires t.TypeTest?
    ensures Canonical(t, c) <==>
              && Canonical(t.lhs, c) && !Absorbs(t.lhs, t.kw.kind) && ValidType(t.typ)
              && (if t.kw.kind == Keyword(As) then |t.bind| == 1 && IsIdToken(t.bind[0]) else t.kw.kind == Keyword(Is) && t.bind == [])
    ensures Level(t, min, max) <==> Takes(t.kw.kind, min, max) && Level(t.lhs, min, max)
    ensures Yield(t) == Yield(t.lhs) + [t.kw, t.typ] + t.bind
  {
    hide RhsPrecedence, Takes;
  }

  lemma ReadsTypeTest(t: Node, c: nat, tail: seq<Token>, rest: seq<Token>)
    requires t.TypeTest? && ValidType(t.typ) && tail == [t.kw, t.typ] + (t.bind + rest)
    requires if t.kw.kind == Keyword(As) then |t.bind| == 1 && IsIdToken(t.bind[0]) else t.kw.kind == Keyword(Is) && t.bind == []
    ensures ParseInfix(t.lhs, tail, c) == (t, rest)
  {
    hide RhsPrecedence;
    assert tail[1..] == [t.typ] + (t.bind + rest) && tail[1..][1..] == t.bind + rest;
    if t.bind == [] { assert t.bind + rest == rest; } else { assert (t.bind + rest)[1..] == rest && t.bind == [t.bind[0]]; }
  }

  lemma {:induction false} ParsesConditional(t: Node, c: nat, rest: seq<Token>, min: nat, max: nat)
    requires t.Conditional? && Canonical(t, c) && Level(t, min, max) && !Absorbs(t, Peek(rest))
    ensures var (l, ts) := ParseLhs(Yield(t) + rest, c);
            ParseLoop(l, ts, c, min, max) == ParseLoop(t, rest, c, min, max)
    decreases t, 2
  {
    hide RhsPrecedence, Takes, ParseClauses, ParseLhs, Operand;
    var mid := [t.colon] + (Yield(t.elseExpr) + rest);
    var tail := [t.qmark] + (Yield(t.thenExpr) + mid);
    assert Yield(t) + rest == Yield(t.cond) + tail;
    assert tail[1..] == Yield(t.thenExpr) + mid && mid[1..] == Yield(t.elseExpr) + rest;
    OperandClosed(t.thenExpr, c, GROUPING_PRECEDENCE, mid);
    OperandParses(t.elseExpr, c, GROUPING_PRECEDENCE, TOP, rest);
    ThenInfix(t.cond, t, c, tail, rest, min, max);
  }

  lemma {:induction false} ParsesGroup(t: Node, c: nat, rest: seq<Token>, min: nat, max: nat)
    requires t.Group? && Canonical(t, c) && Level(t, min, max) && !Absorbs(t, Peek(rest))
    ensures var (l, ts) := ParseLhs(Yield(t) + rest, c);
            ParseLoop(l, ts, c, min, max) == ParseLoop(t, rest, c, min, max)
    decreases t, 2
  {
    SemiGroups();
    hide RhsPrecedence, Takes, ParseLhs, ParseLoop, ParseGroup, ParseInfix, Canonical, Absorbs, Level, Yield, YieldMore, Elements, Operand;
    GroupFacts(t, c, min, max, Peek(rest));
    var more := t.subs[1..];
    var tail := YieldMore(more, t.semis) + rest;
    assert Yield(t.subs[0]) + YieldMore(more, t.semis) + rest == Yield(t.subs[0]) + tail;
    MoreStarts(more, t.semis, rest);
    GroupParses(t, more, t.semis, c, rest);
    ReadsGroup(t, c, tail, rest);
    ThenInfix(t.subs[0], t, c, tail, rest, min, max);
  }

  lemma GroupFacts(t: Node, c: nat, min: nat, max: nat, k: Kind)
    requires t.Group? && Canonical(t, c) && Level(t, min, max) && !Absorbs(t, k)
    ensures var first, more := t.subs[0], t.subs[1..];
            && more != [] && |t.semis| == |more| && (forall s | s in t.semis :: s.kind == OpSemi)
            && Canonical(first, c) && !Absorbs(first, OpSemi) && Level(first, min, max) && Takes(OpSemi, min, max)
            && Elements(more, c) && !Absorbs(more[|more| - 1], k) && k != OpSemi && !Takes(k, GROUPING_PRECEDENCE, TOP)
            && (forall s | s in more :: s < t) && [first] + more == t.subs
    ensures Yield(t) == Yield(t.subs[0]) + YieldMore(t.subs[1..], t.semis)
  {
    hide RhsPrecedence, Takes, Operand;
    var more := t.subs[1..];
    assert more[|more| - 1] == t.subs[|t.subs| - 1] && t.semis[0] in t.semis;
    forall s | s in more ensures s < t { assert s in t.subs; }
  }

  lemma MoreStarts(subs: seq<Node>, semis: seq<Token>, rest: seq<Token>)
    requires subs != [] && |semis| == |subs| && forall s | s in semis :: s.kind == OpSemi
    ensures YieldMore(subs, semis) != [] && Peek(YieldMore(subs, semis) + rest) == OpSemi
  {
    hide Yield;
    assert YieldMore(subs, semis)[0] == semis[0] && semis[0] in semis;
  }

  lemma ReadsGroup(t: Node, c: nat, tail: seq<Token>, rest: seq<Token>)
    requires t.Group? && t.subs != [] && tail != [] && Peek(tail) == OpSemi && [t.subs[0]] + t.subs[1..] == t.subs
    requires ParseGroup(tail, c, GROUPING_PRECEDENCE) == (t.subs[1..], t.semis, rest)
    ensures ParseInfix(t.subs[0], tail, c) == (t, rest)
  {
    SemiGroups();
    hide RhsPrecedence, ParseGroup;
  }

  lemma SemiGroups()
    ensures RhsPrecedence(OpSemi) == GROUPING_PRECEDENCE && !Takes(OpSemi, GROUPING_PRECEDENCE, TOP)
  {}

  lemma {:induction false} GroupParses(t: Node, subs: seq<Node>, semis: seq<Token>, c: nat, rest: seq<Token>)
    requires subs != [] && |semis| == |subs| && (forall s | s in semis :: s.kind == OpSemi) && Elements(subs, c)
    requires forall s | s in subs :: s < t
    requires !Absorbs(subs[|subs| - 1], Peek(rest)) && Peek(rest) != OpSemi && !Takes(Peek(rest), GROUPING_PRECEDENCE, TOP)
    ensures ParseGroup(YieldMore(subs, semis) + rest, c, GROUPING_PRECEDENCE) == (subs, semis, rest)
    decreases t, 0, |subs|
  {
    SemiGroups();
    hide RhsPrecedence, Takes, Canonical, Yield, ParseExpr;
    var after := YieldMore(subs[1..], semis[1..]) + rest;
    var ts := YieldMore(subs, semis) + rest;
    assert ts == [semis[0]] + (Yield(subs[0]) + after) && ts[1..] == Yield(subs[0]) + after;
    assert semis[0] in semis && subs[0] in subs;
    assert [subs[0]] + subs[1..] == subs && [semis[0]] + semis[1..] == semis;
    if |subs| == 1 {
      assert YieldMore(subs[1..], semis[1..]) == [] && after == rest;
    } else {
      assert after[0] == semis[1] && semis[1] in semis;
      assert forall s | s in semis[1..] :: s in semis;
      assert forall s | s in subs[1..] :: s in subs;
      GroupParses(t, subs[1..], semis[1..], c, rest);
    }
    OperandParses(subs[0], c, GROUPING_PRECEDENCE, TOP, after);
  }

  lemma {:induction false} ParsesCall(t: Node, c: nat, rest: seq<Token>, min: nat, max: nat)
    requires t.Call? && t.modifiers == [] && Canonical(t, c) && Level(t, min, max) && !Absorbs(t, Peek(rest))
    ensures var (l, ts) := ParseLhs(Yield(t) + rest, c);
            ParseLoop(l, ts, c, min, max) == ParseLoop(t, rest, c, min, max)
    decreases t, 2
  {
    hide RhsPrecedence, Takes;
    var tail := CallTail(t, rest);
    CallYields(t, rest);
    assert [] + (Yield(t.lhs) + tail) == Yield(t.lhs) + tail;
    CallParses(t, c, rest);
    ThenInfix(t.lhs, t, c, tail, rest, min, max);
  }

  /** What follows the function of a call. */
  function CallTail(t: Node, rest: seq<Token>): seq<Token>
    requires t.Call?
  {
    [t.open] + if t.open.kind == OpParenParen then rest else YieldArgs(t.args, t.commas) + ([t.close] + rest)
  }

  lemma {:induction false} CallParses(t: Node, c: nat, rest: seq<Token>)
    requires t.Call? && Canonical(t, c)
    ensures ParseCall(t.modifiers, t.lhs, CallTail(t, rest), c) == (t, rest)
    decreases t, 1
  {
    var tail := CallTail(t, rest);
    if t.open.kind == OpParenParen {
      assert tail[1..] == rest;
      assert t.commas == [];
    } else {
      var after := [t.close] + rest;
      assert tail[1..] == YieldArgs(t.args, t.commas) + after && after[1..] == rest;
      ArgsParse(t, t.args, t.commas, c, after);
    }
  }

  /** A call with a modifier starts with it. */
  lemma {:induction false} ParsesForked(t: Node, c: nat, rest: seq<Token>)
    requires t.Call? && t.modifiers != [] && Canonical(t, c)
    ensures ParseLhs(Yield(t) + rest, c) == (t, rest)
    decreases t, 2
  {
    ForkedUnfold(t, c, rest);
    var tail := CallTail(t, rest);
    CallParses(t, c, rest);
    OperandParses(t.lhs, c, 0, CALL_PRECEDENCE, tail);
    hide Canonical, Absorbs, Level, Operand, Takes, CallTail, Yield, ParseExpr, ParseCall;
    ForkedStart([t.modifiers[0]] + (Yield(t.lhs) + tail), c, t.lhs, tail);
  }

  lemma ForkedUnfold(t: Node, c: nat, rest: seq<Token>)
    requires t.Call? && t.modifiers != [] && Canonical(t, c)
    ensures var m := t.modifiers[0];
            && t.modifiers == [m] && (m.kind == Keyword(Fork) || m.kind == Keyword(Lazy))
            && Operand(t.lhs, c, 0, CALL_PRECEDENCE)
            && Yield(t) + rest == [m] + (Yield(t.lhs) + CallTail(t, rest))
            && !Absorbs(t.lhs, Peek(CallTail(t, rest))) && !Takes(Peek(CallTail(t, rest)), 0, CALL_PRECEDENCE)
  {
    assert t.modifiers == [t.modifiers[0]];
    hide Yield, RhsPrecedence, Operands;
    CallYields(t, rest);
    CallAtTop(t.open.kind);
  }

  lemma CallAtTop(k: Kind)
    requires k == SepOpenParen || k == OpParenParen
    ensures !Takes(k, 0, CALL_PRECEDENCE)
  {}

  lemma CallYields(t: Node, rest: seq<Token>)
    requires t.Call?
    ensures Yield(t) + rest == t.modifiers + (Yield(t.lhs) + CallTail(t, rest))
  {
    CallYield(t);
    hide Yield, YieldArgs;
    FiveJoined(t.modifiers, Yield(t.lhs), [t.open], YieldArgs(t.args, t.commas), [t.close], rest);
  }

  lemma CallYield(t: Node)
    requires t.Call?
    ensures Yield(t) == t.modifiers + Yield(t.lhs) + [t.open]
                      + if t.open.kind == OpParenParen then [] else YieldArgs(t.args, t.commas) + [t.close]
  {}

  lemma FiveJoined(m: seq<Token>, x: seq<Token>, a: seq<Token>, y: seq<Token>, b: seq<Token>, rest: seq<Token>)
    ensures m + x + a + [] + rest == m + (x + (a + rest))
    ensures m + x + a + (y + b) + rest == m + (x + (a + (y + (b + rest))))
  {
    assert m + x + a + [] + rest == m + x + (a + rest);
    assert m + x + a + (y + b) + rest == m + x + (a + (y + b) + rest);
    assert a + (y + b) + rest == a + (y + (b + rest));
  }

  lemma ForkedStart(ts: seq<Token>, c: nat, lhs: Node, tail: seq<Token>)
    requires Peek(ts) == Keyword(Fork) || Peek(ts) == Keyword(Lazy)
    requires ParseExpr(Rest(ts), c, 0, CALL_PRECEDENCE) == (lhs, tail)
    ensures ParseLhs(ts, c) == ParseCall([Next(ts)], lhs, tail, c)
  {
    hide ParseExpr, ParseCall;
  }

  lemma {:induction false} ParsesIndex(t: Node, c: nat, rest: seq<Token>, min: nat, max: nat)
    requires t.Index? && Canonical(t, c) && Level(t, min, max) && !Absorbs(t, Peek(rest))
    ensures var (l, ts) := ParseLhs(Yield(t) + rest, c);
            ParseLoop(l, ts, c, min, max) == ParseLoop(t, rest, c, min, max)
    decreases t, 2
  {
    hide RhsPrecedence, Takes, ParseLhs, ParseLoop, ParseArgs, ParseInfix, Operands, Separated, Canonical, Level, Absorbs, Yield, YieldArgs;
    IndexFacts(t, c, min, max, Peek(rest));
    var after := [t.close] + rest;
    var x, y := Yield(t.lhs), YieldArgs(t.args, t.commas);
    var tail := [t.open] + (y + after);
    assert x + [t.open] + (y + [t.close]) + rest == x + tail;
    assert forall a | a in t.args :: a < t;
    ArgsParse(t, t.args, t.commas, c, after);
    ReadsIndex(t, c, tail, rest);
    ThenInfix(t.lhs, t, c, tail, rest, min, max);
  }

  lemma IndexFacts(t: Node, c: nat, min: nat, max: nat, k: Kind)
    requires t.Index?
    ensures Canonical(t, c) <==>
              && t.open.kind == SepOpenSquare && t.close.kind == SepCloseSquare && !Absorbs(t.lhs, t.open.kind)
              && Canonical(t.lhs, c) && t.args != [] && Operands(t.args, c, 0) && Separated(|t.args|, t.commas)
    ensures !Absorbs(t, k)
    ensures Level(t, min, max) <==> Takes(t.open.kind, min, max) && Level(t.lhs, min, max)
    ensures Yield(t) == Yield(t.lhs) + [t.open] + (YieldArgs(t.args, t.commas) + [t.close])
  {
    hide RhsPrecedence, Takes, Operands, Separated, YieldArgs;
  }

  lemma ReadsIndex(t: Node, c: nat, tail: seq<Token>, rest: seq<Token>)
    requires t.Index? && t.open.kind == SepOpenSquare && t.close.kind == SepCloseSquare && t.args != []
    requires Separated(|t.args|, t.commas)
    requires tail == [t.open] + (YieldArgs(t.args, t.commas) + ([t.close] + rest))
    requires ParseArgs(YieldArgs(t.args, t.commas) + ([t.close] + rest), c, SepCloseSquare)
          == Args(t.args, t.commas, false, [t.close] + rest)
    ensures ParseInfix(t.lhs, tail, c) == (t, rest)
  {
    hide RhsPrecedence, ParseArgs, YieldArgs;
    var after := [t.close] + rest;
    assert tail[1..] == YieldArgs(t.args, t.commas) + after && after[1..] == rest;
  }

  lemma {:induction false} ArgsParse(t: Node, args: seq<Node>, commas: seq<Token>, c: nat, rest: seq<Token>)
    requires Operands(args, c, 0) && Separated(|args|, commas) && (forall a | a in args :: a < t)
    requires Peek(rest) == SepCloseParen || Peek(rest) == SepCloseSquare
    ensures ParseArgs(YieldArgs(args, commas) + rest, c, Peek(rest)) == Args(args, commas, false, rest)
    decreases t, 0, |args|
  {
    hide RhsPrecedence, Takes, Canonical, Absorbs, Yield, YieldArgs, ParseExpr, ParseArgs, Operand, Operands, Separated, IsCloser;
    if args == [] {
      NoArgsRead(commas, rest, c);
    } else {
      ArgsFacts(args, commas, c);
      StartsOperand(args[0], c);
      var close := Peek(rest);
      if |args| == 1 {
        OperandClosed(args[0], c, 0, rest) by { ClosesArgs(close); }
        OneArgRead(args[0], rest, c);
        assert args == [args[0]];
      } else {
        var more := YieldArgs(args[1..], commas[1..]) + rest;
        OperandClosed(args[0], c, 0, [commas[0]] + more) by { ClosesArgs(SepComma); }
        ArgsParse(t, args[1..], commas[1..], c, rest);
        NextArgRead(args, commas, rest, c);
      }
    }
  }

  lemma ClosesArgs(k: Kind)
    requires k == SepCloseParen || k == SepCloseSquare || k == SepComma
    ensures IsCloser(k)
  {}

  lemma StartsOperand(t: Node, c: nat)
    requires Operand(t, c, 0, TOP)
    ensures Yield(t) != [] && !IsCloser(Yield(t)[0].kind)
  {
    Starts(t, c + 1);
  }

  lemma ArgsFacts(args: seq<Node>, commas: seq<Token>, c: nat)
    requires Operands(args, c, 0) && Separated(|args|, commas) && args != []
    ensures Operand(args[0], c, 0, TOP) && args[0] in args && [args[0]] + args[1..] == args
    ensures |args| == 1 ==> commas == []
    ensures |args| > 1 ==>
              && |commas| == |args| - 1 && commas[0].kind == SepComma && [commas[0]] + commas[1..] == commas
              && Operands(args[1..], c, 0) && Separated(|args| - 1, commas[1..]) && forall a | a in args[1..] :: a in args
  {
    hide Operand;
    if |args| > 1 {
      assert commas[0] in commas;
      assert forall x | x in commas[1..] :: x in commas;
    }
  }

  lemma NoArgsRead(commas: seq<Token>, rest: seq<Token>, c: nat)
    requires Separated(0, commas)
    ensures ParseArgs(YieldArgs([], commas) + rest, c, Peek(rest)) == Args([], commas, false, rest)
  {
    assert YieldArgs([], commas) + rest == rest;
  }

  lemma OneArgRead(arg: Node, rest: seq<Token>, c: nat)
    requires Yield(arg) != [] && !IsCloser(Yield(arg)[0].kind) && (Peek(rest) == SepCloseParen || Peek(rest) == SepCloseSquare)
    requires ParseExpr(Yield(arg) + rest, c, 0, TOP) == (arg, rest)
    ensures ParseArgs(YieldArgs([arg], []) + rest, c, Peek(rest)) == Args([arg], [], false, rest)
  {
    hide ParseExpr, Yield;
    assert YieldArgs([arg], []) == Yield(arg);
    var ts := Yield(arg) + rest;
    assert ts[0] == Yield(arg)[0];
    assert ParseArgs(rest, c, Peek(rest)) == Args([], [], false, rest);
    assert [arg] + [] == [arg];
  }

  lemma NextArgRead(args: seq<Node>, commas: seq<Token>, rest: seq<Token>, c: nat)
    requires |args| > 1 && |commas| == |args| - 1 && commas[0].kind == SepComma
    requires [args[0]] + args[1..] == args && [commas[0]] + commas[1..] == commas
    requires Yield(args[0]) != [] && !IsCloser(Yield(args[0])[0].kind)
    requires Peek(rest) == SepCloseParen || Peek(rest) == SepCloseSquare
    requires var more := YieldArgs(args[1..], commas[1..]) + rest;
             && ParseExpr(Yield(args[0]) + ([commas[0]] + more), c, 0, TOP) == (args[0], [commas[0]] + more)
             && ParseArgs(more, c, Peek(rest)) == Args(args[1..], commas[1..], false, rest)
    ensures ParseArgs(YieldArgs(args, commas) + rest, c, Peek(rest)) == Args(args, commas, false, rest)
  {
    hide ParseExpr, ParseArgs, Yield, IsCloser;
    var x, y := Yield(args[0]), YieldArgs(args[1..], commas[1..]);
    assert YieldArgs(args, commas) == x + ([commas[0]] + y);
    hide YieldArgs;
    var after := [commas[0]] + (y + rest);
    assert x + ([commas[0]] + y) + rest == x + after && (x + after)[0] == x[0] && after[1..] == y + rest;
    ClosesArgs(Peek(rest));
    ArgsStep(x + after, c, Peek(rest), args[0], after);
  }

  lemma ArgsStep(ts: seq<Token>, c: nat, close: Kind, arg: Node, mid: seq<Token>)
    requires ts != [] && Peek(ts) != close && ParseExpr(ts, c, 0, TOP) == (arg, mid) && mid != [] && Peek(mid) == SepComma
    ensures var a := ParseArgs(mid[1..], c, close);
            ParseArgs(ts, c, close) == Args([arg] + a.args, [mid[0]] + a.commas, a.missingComma, a.rest)
  {
    hide ParseExpr;
  }

  lemma {:induction false} ParsesSwitch(t: Node, c: nat, rest: seq<Token>)
    requires t.Switch? && Canonical(t, c) && !Absorbs(t, Peek(rest))
    ensures ParseLhs(Yield(t) + rest, c) == (t, rest)
    decreases t, 1
  {
    hide RhsPrecedence, Takes, Level, Operand, ParseClauses, ParseElse, ParseLoop;
    var ts, after := Yield(t) + rest, YieldAll(t.other) + rest;
    assert ts == YieldAll(t.clauses) + after;
    ClauseStarts(t.clauses, c);
    if t.other == [] {
      assert YieldAll(t.other) == [] && after == rest;
      ClausesParse(t, t.clauses, c, End, rest);
      SwitchStart(ts, c, t.clauses, rest);
    } else {
      var e := t.other[0];
      assert t.other == [e] && t.other[1..] == [] && YieldAll(t.other) == Yield(e) + [];
      assert after == Yield(e) + rest && after[0] == e.kw;
      ClausesParse(t, t.clauses, c, Keyword(Else), after);
      assert e in t.other && LastAbsorbs(t.other, Peek(rest)) == Absorbs(e, Peek(rest));
      ElseParses(e, c, rest);
      SwitchStart(ts, c, t.clauses, after);
    }
  }

  /** A switch after its clauses have been read. */
  lemma SwitchStart(ts: seq<Token>, c: nat, clauses: seq<Node>, after: seq<Token>)
    requires Peek(ts) == Keyword(If) && ParseClauses(ts, c) == (clauses, after)
    ensures ParseLhs(ts, c) == if Peek(after) == Keyword(Else)
                               then (Switch(clauses, [ParseElse(after, c).0]), ParseElse(after, c).1)
                               else (Switch(clauses, []), after)
  {
    hide ParseClauses, ParseElse;
  }

  lemma {:induction false} ElseParses(e: Node, c: nat, rest: seq<Token>)
    requires e.SwitchElse? && CanonicalElse(e, c) && !Absorbs(e, Peek(rest))
    ensures ParseElse(Yield(e) + rest, c) == (e, rest)
    decreases e, 6
  {
    hide RhsPrecedence, Takes;
    var ts := Yield(e) + rest;
    assert ts[1..] == [e.arrow] + (Yield(e.branch) + rest) && ts[1..][1..] == Yield(e.branch) + rest;
    OperandParses(e.branch, c, 0, TOP, rest);
  }

  lemma {:induction false} ClausesParse(t: Node, ts: seq<Node>, c: nat, next: Kind, rest: seq<Token>)
    requires ts != [] && Clauses(ts, c, next) && (forall x | x in ts :: x < t)
    requires if next == End
             then !LastAbsorbs(ts, Peek(rest)) && Peek(rest) != Keyword(If)
             else next == Keyword(Else) && Peek(rest) == Keyword(Else)
    ensures ParseClauses(YieldAll(ts) + rest, c) == (ts, rest)
    decreases t, 0, |ts|
  {
    hide RhsPrecedence, Takes, Canonical, Absorbs, Operand, CanonicalIf, ParseClauses, ParseIf, Yield;
    var x, after := ts[0], YieldAll(ts[1..]) + rest;
    assert x in ts && YieldAll(ts) + rest == Yield(x) + after && [x] + ts[1..] == ts;
    if |ts| == 1 {
      assert ts[1..] == [] && YieldAll(ts[1..]) == [] && after == rest;
      assert ts[|ts| - 1] == x && !Absorbs(x, Peek(rest));
      IfParses(x, c, after);
      FirstClause(Yield(x) + after, c, x, after);
      assert ts == [x];
    } else {
      assert Clauses(ts[1..], c, next);
      ClauseStarts(ts[1..], c);
      assert after[0] == YieldAll(ts[1..])[0];
      assert forall y | y in ts[1..] :: y in ts;
      assert ts[1..][|ts| - 2] == ts[|ts| - 1];
      IfParses(x, c, after);
      ClausesParse(t, ts[1..], c, next, rest);
      FirstClause(Yield(x) + after, c, x, after);
    }
  }

  lemma FirstClause(ts: seq<Token>, c: nat, x: Node, after: seq<Token>)
    requires ParseIf(ts, c) == (x, after)
    ensures ParseClauses(ts, c) == if Peek(after) == Keyword(If)
                                   then ([x] + ParseClauses(after, c).0, ParseClauses(after, c).1) else ([x], after)
  {}

  lemma {:induction false} IfParses(t: Node, c: nat, rest: seq<Token>)
    requires t.SwitchIf? && CanonicalIf(t, c) && !Absorbs(t, Peek(rest))
    ensures ParseIf(Yield(t) + rest, c) == (t, rest)
    decreases t, 0
  {
    hide RhsPrecedence, Takes, ParseLoop, ParseExpr, Canonical;
    var after := [t.arrow] + (Yield(t.branch) + rest);
    var ts := Yield(t) + rest;
    assert ts == [t.kw] + (Yield(t.cond) + after) && ts[1..] == Yield(t.cond) + after;
    assert after[1..] == Yield(t.branch) + rest;
    OperandClosed(t.cond, c, 0, after);
    OperandParses(t.branch, c, 0, TOP, rest);
  }

  /** The first main theorem: whatever follows, the tokens of a canonical expression nested below the
      depth limit are parsed to exactly that expression, and parsing stops at the token after it. */
  lemma ParserInvertsYield(t: Node, depth: nat, min: nat, max: nat, rest: seq<Token>)
    requires Operand(t, depth, min, max) && !Absorbs(t, Peek(rest)) && !Takes(Peek(rest), min, max)
    ensures ParseExpr(Yield(t) + rest, depth, min, max) == (t, rest)
  {
    OperandParses(t, depth, min, max, rest);
  }
}
