/** Whatever the parser returns without an error is a canonical expression whose tokens are exactly the
    ones read. Together with the inverse this says which inputs are parsed to which expressions. */
module ParsingSound {
  import opened Parsing
  import opened ParsingInverse

  /** No error is reported anywhere in t. */
  predicate Clean(t: Node)
    decreases t, 0
  {
    match t
    case LitExpr(_) => true
    case IdExpr(_) => true
    case ConstDecl(_, _, init) => Clean(init)
    case Unary(_, operand) => Clean(operand)
    case Binary(lhs, _, rhs) => Clean(lhs) && Clean(rhs)
    case Call(_, lhs, _, args, _, _) => Clean(lhs) && AllClean(args)
    case Index(lhs, _, args, _, _) => Clean(lhs) && AllClean(args)
    case Field(lhs, _, _) => Clean(lhs)
    case TypeTest(lhs, _, _, _) => Clean(lhs)
    case Conditional(cond, _, a, _, b) => Clean(cond) && Clean(a) && Clean(b)
    case Group(subs, _) => AllClean(subs)
    case Paren(_, e, _) => Clean(e)
    case Switch(clauses, other) => AllClean(clauses) && AllClean(other)
    case SwitchIf(_, cond, _, branch) => Clean(cond) && Clean(branch)
    case SwitchElse(_, _, branch) => Clean(branch)
    case Error(_, _) => false
  }

  predicate AllClean(ts: seq<Node>)
    decreases ts, 0
  {
    ts == [] || (Clean(ts[0]) && AllClean(ts[1..]))
  }

  /** t is a whole expression at this depth that was read up to rest. */
  ghost predicate ReadTo(ts: seq<Token>, t: Node, rest: seq<Token>, depth: nat) {
    ts == Yield(t) + rest && Canonical(t, depth) && !Absorbs(t, Peek(rest))
  }

  ghost predicate OperandRead(ts: seq<Token>, t: Node, rest: seq<Token>, depth: nat, min: nat, max: nat) {
    && ts == Yield(t) + rest && Operand(t, depth, min, max)
    && !Absorbs(t, Peek(rest)) && !Takes(Peek(rest), min, max)
  }

  lemma {:induction false} ExprSound(ts: seq<Token>, depth: nat, min: nat, max: nat)
    requires Clean(ParseExpr(ts, depth, min, max).0)
    ensures var (t, rest) := ParseExpr(ts, depth, min, max);
            OperandRead(ts, t, rest, depth, min, max)
    decreases |ts|, 9
  {
    hide Canonical, Absorbs, Yield, Takes;
    var (lhs, mid) := ParseLhs(ts, depth + 1);
    LoopClean(lhs, mid, depth + 1, min, max);
    LhsSound(ts, depth + 1, min, max);
    LoopSound(lhs, mid, depth + 1, min, max);
  }

  lemma {:induction false} LoopClean(lhs: Node, ts: seq<Token>, c: nat, min: nat, max: nat)
    requires Clean(ParseLoop(lhs, ts, c, min, max).0)
    ensures Clean(lhs)
    decreases |ts|
  {
    hide RhsPrecedence;
    if Takes(Peek(ts), min, max) {
      var (t, rest) := ParseInfix(lhs, ts, c);
      LoopClean(t, rest, c, min, max);
      InfixClean(lhs, ts, c);
    }
  }

  lemma InfixClean(lhs: Node, ts: seq<Token>, c: nat)
    requires ts != [] && Clean(ParseInfix(lhs, ts, c).0)
    ensures Clean(lhs)
  {
    hide RhsPrecedence, Takes, ParseExpr, ParseArgs, ParseGroup;
    var k, t := Peek(ts), ParseInfix(lhs, ts, c).0;
    if k == SepOpenParen || k == OpParenParen {
      assert t.Call? && t.lhs == lhs;
    } else if k == OpSemi {
      assert t.Group? && t.subs[0] == lhs;
    } else if k == OpQMark {
      assert t.Conditional? && t.cond == lhs;
    } else if k == OpDot {
      assert t.Field? && t.lhs == lhs;
    } else if k == SepOpenSquare {
      assert t.Index? && t.lhs == lhs;
    } else if k == Keyword(Is) || k == Keyword(As) {
      assert t.TypeTest? && t.lhs == lhs;
    } else {
      assert t.Binary? && t.lhs == lhs;
    }
  }

  lemma {:induction false} LhsSound(ts: seq<Token>, c: nat, min: nat, max: nat)
    requires Clean(ParseLhs(ts, c).0)
    ensures var (t, rest) := ParseLhs(ts, c);
            ReadTo(ts, t, rest, c) && Level(t, min, max)
    decreases |ts|, 8
  {
    if IsOperator(Peek(ts)) {
      var prec := LhsPrecedence(Peek(ts));
      ExprSound(Rest(ts), c, prec, TOP);
    } else {
      PrimarySound(ts, c, min, max);
    }
  }

  lemma {:induction false} LoopSound(lhs: Node, ts: seq<Token>, c: nat, min: nat, max: nat)
    requires Canonical(lhs, c) && Level(lhs, min, max) && !Absorbs(lhs, Peek(ts))
    requires Clean(ParseLoop(lhs, ts, c, min, max).0)
    ensures var (t, rest) := ParseLoop(lhs, ts, c, min, max);
            && Yield(lhs) + ts == Yield(t) + rest && Canonical(t, c) && Level(t, min, max)
            && !Absorbs(t, Peek(rest)) && !Takes(Peek(rest), min, max)
    decreases |ts|, 7
  {
    hide Canonical, Absorbs, Yield, Takes, Level;
    if Takes(Peek(ts), min, max) {
      TakenIsThere(ts, min, max);
      var (t, rest) := ParseInfix(lhs, ts, c);
      LoopClean(t, rest, c, min, max);
      InfixSound(lhs, ts, c, min, max);
      LoopSound(t, rest, c, min, max);
    }
  }

  lemma TakenIsThere(ts: seq<Token>, min: nat, max: nat)
    requires Takes(Peek(ts), min, max)
    ensures ts != []
  {}

  /** One operator after lhs. */
  ghost predicate InfixRead(lhs: Node, ts: seq<Token>, t: Node, rest: seq<Token>, c: nat, min: nat, max: nat) {
    Yield(lhs) + ts == Yield(t) + rest && Canonical(t, c) && Level(t, min, max) && !Absorbs(t, Peek(rest))
  }

  lemma {:induction false} InfixSound(lhs: Node, ts: seq<Token>, c: nat, min: nat, max: nat)
    requires ts != [] && Canonical(lhs, c) && Level(lhs, min, max) && !Absorbs(lhs, Peek(ts))
    requires Takes(Peek(ts), min, max) && Clean(ParseInfix(lhs, ts, c).0)
    ensures var (t, rest) := ParseInfix(lhs, ts, c);
            InfixRead(lhs, ts, t, rest, c, min, max)
    decreases |ts|, 6
  {
    hide RhsPrecedence, Takes, Canonical, Absorbs, Level, ParseExpr, ParseArgs, ParseGroup, ParseCall, ParseIndex, ParseConditional, ParseTypeTest, ParseInfix, Yield, InfixRead;
    InfixIs(lhs, ts, c);
    var k := Peek(ts);
    if k == SepOpenParen || k == OpParenParen {
      CallSound([], lhs, ts, c, min, max);
      CallIsInfix(lhs, ts, c, min, max);
    } else if k == OpSemi {
      GroupSound(lhs, ts, c, min, max);
    } else if k == OpQMark {
      ConditionalSound(lhs, ts, c, min, max);
    } else if k == OpDot {
      FieldSound(lhs, ts, c, min, max);
    } else if k == SepOpenSquare {
      IndexSound(lhs, ts, c, min, max);
    } else if k == Keyword(Is) || k == Keyword(As) {
      TypeTestSound(lhs, ts, c, min, max);
    } else {
      TakenIsOperator(k, min, max);
      BinarySound(lhs, ts, c, min, max);
    }
  }

  lemma InfixIs(lhs: Node, ts: seq<Token>, c: nat)
    requires ts != [] && Clean(ParseInfix(lhs, ts, c).0)
    ensures var k, r := Peek(ts), ParseInfix(lhs, ts, c);
            if k == SepOpenParen || k == OpParenParen then r == ParseCall([], lhs, ts, c)
            else if k == OpSemi then
              var (subs, semis, rest) := ParseGroup(ts, c, GROUPING_PRECEDENCE);
              r == (Group([lhs] + subs, semis), rest) && AllClean([lhs] + subs)
            else if k == OpQMark then r == ParseConditional(lhs, ts, c)
            else if k == OpDot then
              Next(Rest(ts)).kind == Identifier && r == (Field(lhs, Next(ts), Next(Rest(ts))), Rest(Rest(ts)))
            else if k == SepOpenSquare then r == ParseIndex(lhs, ts, c)
            else if k == Keyword(Is) || k == Keyword(As) then r == ParseTypeTest(lhs, ts)
            else
              var (rhs, rest) := ParseExpr(Rest(ts), c, RhsPrecedence(k), TOP);
              r == (Binary(lhs, Next(ts), rhs), rest) && Clean(rhs)
  {
    assert RhsPrecedence(OpSemi) == GROUPING_PRECEDENCE;
    hide RhsPrecedence, ParseExpr, ParseArgs, ParseGroup, ParseCall, ParseIndex, ParseConditional, ParseTypeTest;
  }

  lemma CallIsInfix(lhs: Node, ts: seq<Token>, c: nat, min: nat, max: nat)
    requires var (t, rest) := ParseCall([], lhs, ts, c);
             [] + (Yield(lhs) + ts) == Yield(t) + rest && Canonical(t, c) && Level(t, min, max) && !Absorbs(t, Peek(rest))
    ensures var (t, rest) := ParseCall([], lhs, ts, c);
            InfixRead(lhs, ts, t, rest, c, min, max)
  {
    hide Canonical, Level, Absorbs, ParseCall, Yield;
    var x := Yield(lhs) + ts;
    assert [] + x == x;
  }

  lemma TakenIsOperator(k: Kind, min: nat, max: nat)
    requires Takes(k, min, max) && k != SepOpenParen && k != OpParenParen && k != OpSemi && k != OpQMark && k != OpDot
    requires k != SepOpenSquare && k != Keyword(Is) && k != Keyword(As)
    ensures IsPlainInfix(k)
  {}

  lemma FirstRest(ts: seq<Token>)
    requires ts != []
    ensures ts == [Next(ts)] + Rest(ts)
  {}

  lemma FieldSound(lhs: Node, ts: seq<Token>, c: nat, min: nat, max: nat)
    requires Peek(ts) == OpDot && Canonical(lhs, c) && Level(lhs, min, max) && !Absorbs(lhs, Peek(ts))
    requires Takes(Peek(ts), min, max) && Next(Rest(ts)).kind == Identifier
    ensures InfixRead(lhs, ts, Field(lhs, Next(ts), Next(Rest(ts))), Rest(Rest(ts)), c, min, max)
  {
    hide RhsPrecedence, Takes, Yield, Canonical, Level;
    var a, b, rest := Next(ts), Next(Rest(ts)), Rest(Rest(ts));
    FirstRest(ts);
    FirstRest(Rest(ts));
    FieldFacts(Field(lhs, a, b), c, min, max);
    TwoJoined(Yield(lhs), a, b, [], rest);
  }

  lemma TwoJoined(x: seq<Token>, a: Token, b: Token, y: seq<Token>, rest: seq<Token>)
    ensures x + ([a] + ([b] + rest)) == x + [a, b] + rest
    ensures x + ([a] + ([b] + y + rest)) == x + [a, b] + y + rest
  {}

  lemma TypeTestSound(lhs: Node, ts: seq<Token>, c: nat, min: nat, max: nat)
    requires Peek(ts) == Keyword(Is) || Peek(ts) == Keyword(As)
    requires ts != [] && Canonical(lhs, c) && Level(lhs, min, max) && !Absorbs(lhs, Peek(ts))
    requires Takes(Peek(ts), min, max) && Clean(ParseTypeTest(lhs, ts).0)
    ensures var (t, rest) := ParseTypeTest(lhs, ts);
            InfixRead(lhs, ts, t, rest, c, min, max)
  {
    hide RhsPrecedence, Takes, Canonical, Absorbs, Level, Yield, InfixRead, Rest, AllClean, CanonicalElse;
    var kw, typ, rest := Next(ts), Next(Rest(ts)), Rest(Rest(ts));
    assert ValidType(typ);
    FirstRest(ts);
    FirstRest(Rest(ts));
    if kw.kind == Keyword(As) {
      FirstRest(rest);
      assert [typ] + ([Next(rest)] + Rest(rest)) == [typ, Next(rest)] + Rest(rest);
      TypeTestRead(lhs, ts, kw, typ, [Next(rest)], Rest(rest), c, min, max);
    } else {
      assert [typ] + rest == [typ] + [] + rest;
      TypeTestRead(lhs, ts, kw, typ, [], rest, c, min, max);
    }
  }

  lemma TypeTestRead(
    lhs: Node, ts: seq<Token>, kw: Token, typ: Token, bind: seq<Token>, rest: seq<Token>, c: nat, min: nat, max: nat)
    requires Canonical(lhs, c) && Level(lhs, min, max) && !Absorbs(lhs, kw.kind) && Takes(kw.kind, min, max)
    requires ValidType(typ) && ts == [kw] + ([typ] + bind + rest)
    requires if kw.kind == Keyword(As) then |bind| == 1 && IsIdToken(bind[0]) else kw.kind == Keyword(Is) && bind == []
    ensures InfixRead(lhs, ts, TypeTest(lhs, kw, typ, bind), rest, c, min, max)
  {
    hide RhsPrecedence, Takes, Yield, Canonical, Level;
    TypeTestFacts(TypeTest(lhs, kw, typ, bind), c, min, max);
    TwoJoined(Yield(lhs), kw, typ, bind, rest);
  }

  lemma {:induction false} BinarySound(lhs: Node, ts: seq<Token>, c: nat, min: nat, max: nat)
    requires ts != [] && IsPlainInfix(Peek(ts)) && Canonical(lhs, c) && Level(lhs, min, max) && !Absorbs(lhs, Peek(ts))
    requires Takes(Peek(ts), min, max) && Clean(ParseExpr(Rest(ts), c, RhsPrecedence(Peek(ts)), TOP).0)
    ensures var (rhs, rest) := ParseExpr(Rest(ts), c, RhsPrecedence(Peek(ts)), TOP);
            InfixRead(lhs, ts, Binary(lhs, Next(ts), rhs), rest, c, min, max)
    decreases |ts|, 5
  {
    var k := Peek(ts);
    var (rhs, rest) := ParseExpr(Rest(ts), c, RhsPrecedence(k), TOP);
    ExprSound(Rest(ts), c, RhsPrecedence(k), TOP);
    FirstRest(ts);
    hide ParseExpr;
    BinaryRead(lhs, ts, Next(ts), rhs, rest, c, min, max);
  }

  lemma BinaryRead(lhs: Node, ts: seq<Token>, op: Token, rhs: Node, rest: seq<Token>, c: nat, min: nat, max: nat)
    requires IsPlainInfix(op.kind) && Canonical(lhs, c) && Level(lhs, min, max) && !Absorbs(lhs, op.kind)
    requires Takes(op.kind, min, max) && ts == [op] + (Yield(rhs) + rest)
    requires Operand(rhs, c, RhsPrecedence(op.kind), TOP)
    requires !Absorbs(rhs, Peek(rest)) && !Takes(Peek(rest), RhsPrecedence(op.kind), TOP)
    ensures InfixRead(lhs, ts, Binary(lhs, op, rhs), rest, c, min, max)
  {
    hide RhsPrecedence, Takes, IsPlainInfix, Yield, Operand, Absorbs, Canonical, Level;
    BinaryFacts(Binary(lhs, op, rhs), c, min, max, Peek(rest));
    var x, y := Yield(lhs), Yield(rhs);
    assert x + ([op] + (y + rest)) == x + [op] + y + rest;
  }

  lemma {:induction false} ConditionalSound(lhs: Node, ts: seq<Token>, c: nat, min: nat, max: nat)
    requires Peek(ts) == OpQMark && Canonical(lhs, c) && Level(lhs, min, max) && !Absorbs(lhs, Peek(ts))
    requires Takes(Peek(ts), min, max) && Clean(ParseConditional(lhs, ts, c).0)
    ensures var (t, rest) := ParseConditional(lhs, ts, c);
            InfixRead(lhs, ts, t, rest, c, min, max)
    decreases |ts|, 5
  {
    hide RhsPrecedence, Takes, ParseExpr, Canonical, Level, Absorbs, Operand, Yield;
    var (a, mid) := ParseExpr(Rest(ts), c, GROUPING_PRECEDENCE, TOP);
    var (b, rest) := ParseExpr(Rest(mid), c, GROUPING_PRECEDENCE, TOP);
    assert Next(mid).kind == SepColon && Clean(a) && Clean(b);
    ExprSound(Rest(ts), c, GROUPING_PRECEDENCE, TOP);
    ExprSound(Rest(mid), c, GROUPING_PRECEDENCE, TOP);
    FirstRest(ts);
    FirstRest(mid);
    assert ParseConditional(lhs, ts, c) == (Conditional(lhs, Next(ts), a, Next(mid), b), rest);
    hide ParseConditional;
    ConditionalRead(lhs, ts, Next(ts), a, Next(mid), b, rest, c, min, max);
  }

  lemma ConditionalRead(
    lhs: Node, ts: seq<Token>, q: Token, a: Node, colon: Token, b: Node, rest: seq<Token>, c: nat, min: nat, max: nat)
    requires Canonical(lhs, c) && Level(lhs, min, max) && !Absorbs(lhs, q.kind) && Takes(q.kind, min, max)
    requires q.kind == OpQMark && colon.kind == SepColon
    requires ts == [q] + (Yield(a) + ([colon] + (Yield(b) + rest)))
    requires Operand(a, c, GROUPING_PRECEDENCE, TOP) && Operand(b, c, GROUPING_PRECEDENCE, TOP)
    requires !Absorbs(b, Peek(rest)) && !Takes(Peek(rest), GROUPING_PRECEDENCE, TOP)
    ensures InfixRead(lhs, ts, Conditional(lhs, q, a, colon, b), rest, c, min, max)
  {
    hide RhsPrecedence, Takes, Yield, Canonical, Operand, Absorbs, Level;
    var t := Conditional(lhs, q, a, colon, b);
    ConditionalYield(t);
    ConditionalFacts(t, c, min, max, Peek(rest));
    Joined(Yield(lhs), q, Yield(a), colon, Yield(b), rest);
  }

  lemma ConditionalFacts(t: Node, c: nat, min: nat, max: nat, k: Kind)
    requires t.Conditional? && Canonical(t.cond, c) && !Absorbs(t.cond, t.qmark.kind) && t.qmark.kind == OpQMark
    requires t.colon.kind == SepColon && Operand(t.thenExpr, c, GROUPING_PRECEDENCE, TOP) && Operand(t.elseExpr, c, GROUPING_PRECEDENCE, TOP)
    ensures Canonical(t, c) && (Level(t, min, max) <==> Takes(t.qmark.kind, min, max) && Level(t.cond, min, max))
    ensures Absorbs(t, k) <==> Takes(k, GROUPING_PRECEDENCE, TOP) || Absorbs(t.elseExpr, k)
  {
    hide RhsPrecedence, Takes;
  }

  lemma ConditionalYield(t: Node)
    requires t.Conditional?
    ensures Yield(t) == Yield(t.cond) + [t.qmark] + (Yield(t.thenExpr) + ([t.colon] + Yield(t.elseExpr)))
  {}

  lemma Joined(x: seq<Token>, a: Token, y: seq<Token>, b: Token, z: seq<Token>, rest: seq<Token>)
    ensures x + ([a] + (y + ([b] + (z + rest)))) == x + [a] + (y + ([b] + z)) + rest
    ensures x + ([a] + (y + ([b] + rest))) == x + [a] + (y + [b]) + rest
  {}

  lemma {:induction false} GroupSound(lhs: Node, ts: seq<Token>, c: nat, min: nat, max: nat)
    requires Peek(ts) == OpSemi && Canonical(lhs, c) && Level(lhs, min, max) && !Absorbs(lhs, Peek(ts))
    requires Takes(Peek(ts), min, max)
    requires var (subs, semis, rest) := ParseGroup(ts, c, GROUPING_PRECEDENCE); AllClean([lhs] + subs)
    ensures var (subs, semis, rest) := ParseGroup(ts, c, GROUPING_PRECEDENCE);
            InfixRead(lhs, ts, Group([lhs] + subs, semis), rest, c, min, max)
    decreases |ts|, 5
  {
    hide RhsPrecedence, Takes;
    var (subs, semis, rest) := ParseGroup(ts, c, GROUPING_PRECEDENCE);
    assert ([lhs] + subs)[1..] == subs;
    ElementsSound(ts, c);
    hide ParseGroup;
    GroupRead(lhs, ts, subs, semis, rest, c, min, max);
  }

  lemma GroupRead(
    lhs: Node, ts: seq<Token>, subs: seq<Node>, semis: seq<Token>, rest: seq<Token>, c: nat, min: nat, max: nat)
    requires Canonical(lhs, c) && Level(lhs, min, max) && !Absorbs(lhs, OpSemi) && Takes(OpSemi, min, max)
    requires ts == YieldMore(subs, semis) + rest && Elements(subs, c) && subs != [] && |semis| == |subs|
    requires (forall s | s in semis :: s.kind == OpSemi) && Peek(rest) != OpSemi
    requires !Takes(Peek(rest), GROUPING_PRECEDENCE, TOP) && !Absorbs(subs[|subs| - 1], Peek(rest))
    ensures InfixRead(lhs, ts, Group([lhs] + subs, semis), rest, c, min, max)
  {
    hide RhsPrecedence, Takes, Canonical, Elements, Yield, YieldMore, LastAbsorbs;
    var all := [lhs] + subs;
    GroupCanonical(lhs, subs, semis, c);
    GroupYield(lhs, subs, semis, Peek(rest));
    Assoc(semis[0], Yield(lhs), YieldMore(subs, semis), rest);
    assert semis[0] in semis;
  }

  lemma GroupYield(lhs: Node, subs: seq<Node>, semis: seq<Token>, k: Kind)
    requires subs != []
    ensures Yield(Group([lhs] + subs, semis)) == Yield(lhs) + YieldMore(subs, semis)
    ensures LastAbsorbs([lhs] + subs, k) == Absorbs(subs[|subs| - 1], k)
  {
    hide RhsPrecedence, Takes;
    var all := [lhs] + subs;
    assert all[1..] == subs && all[|all| - 1] == subs[|subs| - 1];
  }

  lemma GroupCanonical(lhs: Node, subs: seq<Node>, semis: seq<Token>, c: nat)
    requires Canonical(lhs, c) && !Absorbs(lhs, OpSemi) && Elements(subs, c) && subs != [] && |semis| == |subs|
    requires forall s | s in semis :: s.kind == OpSemi
    ensures Canonical(Group([lhs] + subs, semis), c)
  {
    hide RhsPrecedence, Takes;
    assert ([lhs] + subs)[1..] == subs;
  }

  lemma {:induction false} ElementsSound(ts: seq<Token>, c: nat)
    requires Peek(ts) == OpSemi && AllClean(ParseGroup(ts, c, GROUPING_PRECEDENCE).0)
    ensures var (subs, semis, rest) := ParseGroup(ts, c, GROUPING_PRECEDENCE);
            && ts == YieldMore(subs, semis) + rest && Elements(subs, c) && subs != [] && |semis| == |subs|
            && (forall s | s in semis :: s.kind == OpSemi) && Peek(rest) != OpSemi
            && !Takes(Peek(rest), GROUPING_PRECEDENCE, TOP) && !Absorbs(subs[|subs| - 1], Peek(rest))
    decreases |ts|, 4
  {
    hide RhsPrecedence, Takes;
    var (sub, mid) := ParseExpr(Rest(ts), c, GROUPING_PRECEDENCE, TOP);
    var (subs, semis, rest) := ParseGroup(mid, c, GROUPING_PRECEDENCE);
    FirstRest(ts);
    ElementsUnfold(ts, c);
    ExprSound(Rest(ts), c, GROUPING_PRECEDENCE, TOP);
    if Peek(mid) == OpSemi {
      ElementsSound(mid, c);
      hide ParseExpr, ParseGroup, Canonical, Operand, Absorbs, Takes, Yield, AllClean;
      ElementsMore(Next(ts), sub, subs, semis, rest, c);
    } else {
      assert subs == [] && semis == [] && rest == mid;
      hide ParseExpr, ParseGroup, Canonical, Operand, Absorbs, Takes, Yield, AllClean;
      ElementsOne(Next(ts), sub, rest, c);
    }
  }

  lemma ElementsMore(semi: Token, sub: Node, subs: seq<Node>, semis: seq<Token>, rest: seq<Token>, c: nat)
    requires Operand(sub, c, GROUPING_PRECEDENCE, TOP) && !Absorbs(sub, OpSemi) && Elements(subs, c) && subs != []
    requires |semis| == |subs|
    ensures [semi] + (Yield(sub) + (YieldMore(subs, semis) + rest)) == YieldMore([sub] + subs, [semi] + semis) + rest
    ensures Elements([sub] + subs, c) && ([sub] + subs)[|subs|] == subs[|subs| - 1]
  {
    MoreFirst(semi, sub, subs, semis);
    ElementsFirst(sub, subs, c);
    var x, y := Yield(sub), YieldMore(subs, semis);
    Assoc(semi, x, y, rest);
    hide *;
    assert ([sub] + subs)[|subs|] == subs[|subs| - 1];
  }

  lemma Assoc(a: Token, x: seq<Token>, y: seq<Token>, rest: seq<Token>)
    ensures [a] + (x + (y + rest)) == [a] + (x + y) + rest
    ensures x + (y + rest) == x + y + rest
  {}

  lemma MoreFirst(semi: Token, sub: Node, subs: seq<Node>, semis: seq<Token>)
    ensures YieldMore([sub] + subs, [semi] + semis) == [semi] + (Yield(sub) + YieldMore(subs, semis))
  {
    assert ([sub] + subs)[1..] == subs && ([semi] + semis)[1..] == semis;
  }

  lemma ElementsFirst(sub: Node, subs: seq<Node>, c: nat)
    requires Operand(sub, c, GROUPING_PRECEDENCE, TOP) && !Absorbs(sub, OpSemi) && Elements(subs, c)
    ensures Elements([sub] + subs, c)
  {
    hide Operand, Absorbs;
    assert ([sub] + subs)[1..] == subs;
  }

  lemma ElementsOne(semi: Token, sub: Node, rest: seq<Token>, c: nat)
    requires Operand(sub, c, GROUPING_PRECEDENCE, TOP)
    ensures [semi] + (Yield(sub) + rest) == YieldMore([sub], [semi]) + rest && Elements([sub], c)
    ensures [sub] + [] == [sub] && [semi] + [] == [semi]
  {
    assert [sub][1..] == [] && [semi][1..] == [] && YieldMore([], []) == [];
    var x := Yield(sub);
    assert x + [] == x;
    assert [semi] + (x + rest) == [semi] + x + rest;
  }

  lemma ElementsUnfold(ts: seq<Token>, c: nat)
    requires Peek(ts) == OpSemi && AllClean(ParseGroup(ts, c, GROUPING_PRECEDENCE).0)
    ensures var (sub, mid) := ParseExpr(Rest(ts), c, GROUPING_PRECEDENCE, TOP);
            var (subs, semis, rest) := ParseGroup(mid, c, GROUPING_PRECEDENCE);
            && ParseGroup(ts, c, GROUPING_PRECEDENCE) == ([sub] + subs, [Next(ts)] + semis, rest)
            && Clean(sub) && AllClean(subs)
  {
    var (sub, mid) := ParseExpr(Rest(ts), c, GROUPING_PRECEDENCE, TOP);
    var subs := ParseGroup(mid, c, GROUPING_PRECEDENCE).0;
    assert ([sub] + subs)[1..] == subs;
  }

  // ----- Calls and indexes -----

  /** Arguments with one comma between each two of them. */
  ghost predicate ArgsRead(ts: seq<Token>, a: Args, c: nat, close: Kind) {
    && ts == YieldArgs(a.args, a.commas) + a.rest && Operands(a.args, c, 0) && Separated(|a.args|, a.commas)
    && (a.rest == [] || Peek(a.rest) == close)
  }

  ghost predicate ArgsValid(a: Args) {
    AllClean(a.args) && !a.missingComma && |a.commas| == (if a.args == [] then 0 else |a.args| - 1)
  }

  lemma {:induction false} ArgsSound(ts: seq<Token>, c: nat, close: Kind)
    requires ArgsValid(ParseArgs(ts, c, close))
    ensures ArgsRead(ts, ParseArgs(ts, c, close), c, close)
    decreases |ts|, 10
  {
    hide RhsPrecedence, Takes, Canonical, Absorbs, Operand, Yield, YieldArgs, ParseExpr, ParseArgs, ArgsRead, Operands, Separated, Clean, AllClean;
    var a := ParseArgs(ts, c, close);
    ArgsIs(ts, c, close);
    if Peek(ts) == close || ts == [] {
      NoArg(ts, c, close);
    } else {
      var (arg, mid) := ParseExpr(ts, c, 0, TOP);
      ExprSound(ts, c, 0, TOP);
      if Peek(mid) == SepComma {
        ArgsSound(Rest(mid), c, close);
        FirstRest(mid);
        FirstArg(ts, arg, Next(mid), Rest(mid), ParseArgs(Rest(mid), c, close), c, close);
      } else {
        OneArg(ts, arg, mid, c, close);
      }
    }
  }

  lemma ArgsIs(ts: seq<Token>, c: nat, close: Kind)
    requires ArgsValid(ParseArgs(ts, c, close))
    ensures var a := ParseArgs(ts, c, close);
            if Peek(ts) == close || ts == [] then a == Args([], [], false, ts)
            else
              var (arg, mid) := ParseExpr(ts, c, 0, TOP);
              && Clean(arg)
              && if Peek(mid) == SepComma then
                   var b := ParseArgs(Rest(mid), c, close);
                   && a == Args([arg] + b.args, [Next(mid)] + b.commas, b.missingComma, b.rest)
                   && mid != [] && ArgsValid(b) && b.args != []
                 else a == Args([arg], [], false, mid) && (mid == [] || Peek(mid) == close)
  {
    hide ParseExpr, RhsPrecedence;
    var a := ParseArgs(ts, c, close);
    if Peek(ts) != close && ts != [] {
      var (arg, mid) := ParseExpr(ts, c, 0, TOP);
      assert a.args[0] == arg && Clean(arg);
      if Peek(mid) == SepComma {
        var b := ParseArgs(Rest(mid), c, close);
        assert a == Args([arg] + b.args, [Next(mid)] + b.commas, b.missingComma, b.rest);
        assert a.args[1..] == b.args && a.commas[1..] == b.commas && b.args != [];
      } else {
        assert ParseArgs(mid, c, close) == Args([], [], false, mid);
      }
    }
  }

  lemma NoArg(ts: seq<Token>, c: nat, close: Kind)
    requires ts == [] || Peek(ts) == close
    ensures ArgsRead(ts, Args([], [], false, ts), c, close)
  {
    assert YieldArgs([], []) == [] && [] + ts == ts;
  }

  lemma OneArg(ts: seq<Token>, arg: Node, rest: seq<Token>, c: nat, close: Kind)
    requires Operand(arg, c, 0, TOP) && ts == Yield(arg) + rest && (rest == [] || Peek(rest) == close)
    ensures ArgsRead(ts, Args([arg], [], false, rest), c, close)
  {
    hide Operand, Yield;
    assert YieldArgs([arg], []) == Yield(arg) && [arg][1..] == [];
  }

  lemma FirstArg(ts: seq<Token>, arg: Node, comma: Token, tail: seq<Token>, b: Args, c: nat, close: Kind)
    requires Operand(arg, c, 0, TOP) && comma.kind == SepComma && b.args != [] && !b.missingComma
    requires ts == Yield(arg) + ([comma] + tail) && ArgsRead(tail, b, c, close)
    ensures ArgsRead(ts, Args([arg] + b.args, [comma] + b.commas, false, b.rest), c, close)
  {
    hide Operand, Yield;
    assert ([arg] + b.args)[1..] == b.args && ([comma] + b.commas)[1..] == b.commas;
    var x, y := Yield(arg), YieldArgs(b.args, b.commas);
    assert YieldArgs([arg] + b.args, [comma] + b.commas) == x + ([comma] + y);
    hide YieldArgs;
    assert x + ([comma] + (y + b.rest)) == x + ([comma] + y) + b.rest;
  }

  lemma {:induction false} CallSound(modifiers: seq<Token>, lhs: Node, ts: seq<Token>, c: nat, min: nat, max: nat)
    requires ts != [] && Clean(ParseCall(modifiers, lhs, ts, c).0) && !Absorbs(lhs, Peek(ts))
    requires if modifiers == [] then Canonical(lhs, c) && Level(lhs, min, max) && Takes(Peek(ts), min, max)
             else |modifiers| == 1 && (modifiers[0].kind == Keyword(Fork) || modifiers[0].kind == Keyword(Lazy))
                  && Operand(lhs, c, 0, CALL_PRECEDENCE)
    ensures var (t, rest) := ParseCall(modifiers, lhs, ts, c);
            && modifiers + (Yield(lhs) + ts) == Yield(t) + rest
            && Canonical(t, c) && Level(t, min, max) && !Absorbs(t, Peek(rest)) && t.Call?
    decreases |ts|, 5
  {
    hide RhsPrecedence, Takes, Canonical, Absorbs, Level, Yield, Operand, ParseArgs;
    var open := Next(ts);
    FirstRest(ts);
    if open.kind == OpParenParen {
      CallRead(modifiers, lhs, ts, open, [], [], open, Rest(ts), c, min, max);
    } else {
      var a := ParseArgs(Rest(ts), c, SepCloseParen);
      assert ParseCall(modifiers, lhs, ts, c) == (Call(modifiers, lhs, open, a.args, a.commas, Next(a.rest)), Rest(a.rest));
      ArgsSound(Rest(ts), c, SepCloseParen);
      FirstRest(a.rest);
      hide ParseArgs, ParseCall, Canonical, Absorbs, Level, Takes, Yield, Operand;
      CallRead(modifiers, lhs, ts, open, a.args, a.commas, Next(a.rest), Rest(a.rest), c, min, max);
    }
  }

  lemma CallRead(
    modifiers: seq<Token>, lhs: Node, ts: seq<Token>, open: Token, args: seq<Node>, commas: seq<Token>, close: Token,
    rest: seq<Token>, c: nat, min: nat, max: nat)
    requires ValidParentheses(open, close) && !Absorbs(lhs, open.kind) && Operands(args, c, 0) && Separated(|args|, commas)
    requires if modifiers == [] then Canonical(lhs, c) && Level(lhs, min, max) && Takes(open.kind, min, max)
             else |modifiers| == 1 && (modifiers[0].kind == Keyword(Fork) || modifiers[0].kind == Keyword(Lazy))
                  && Operand(lhs, c, 0, CALL_PRECEDENCE)
    requires if open.kind == OpParenParen then args == [] && close == open && ts == [open] + rest
             else ts == [open] + (YieldArgs(args, commas) + ([close] + rest))
    ensures var t := Call(modifiers, lhs, open, args, commas, close);
            && modifiers + (Yield(lhs) + ts) == Yield(t) + rest
            && Canonical(t, c) && Level(t, min, max) && !Absorbs(t, Peek(rest))
  {
    hide RhsPrecedence, Takes, Yield, YieldArgs, Canonical, Absorbs, Level;
    var x, y := Yield(lhs), YieldArgs(args, commas);
    var t := Call(modifiers, lhs, open, args, commas, close);
    CallYield(t);
    CallFacts(t, c, min, max, Peek(rest));
    if open.kind == OpParenParen {
      assert modifiers + (x + ([open] + rest)) == modifiers + x + [open] + [] + rest;
    } else {
      Joined(modifiers + x, open, y, close, [], rest);
      assert modifiers + (x + ts) == modifiers + x + ts;
    }
  }

  lemma CallFacts(t: Node, c: nat, min: nat, max: nat, k: Kind)
    requires t.Call? && ValidParentheses(t.open, t.close) && !Absorbs(t.lhs, t.open.kind) && Operands(t.args, c, 0)
    requires Separated(|t.args|, t.commas) && (t.open.kind == OpParenParen ==> t.args == [] && t.close == t.open)
    requires if t.modifiers == [] then Canonical(t.lhs, c)
             else |t.modifiers| == 1 && (t.modifiers[0].kind == Keyword(Fork) || t.modifiers[0].kind == Keyword(Lazy))
                  && Operand(t.lhs, c, 0, CALL_PRECEDENCE)
    ensures Canonical(t, c) && !Absorbs(t, k)
    ensures Level(t, min, max) <==> (t.modifiers == [] ==> Takes(t.open.kind, min, max) && Level(t.lhs, min, max))
  {
    hide RhsPrecedence, Takes;
  }

  lemma {:induction false} IndexSound(lhs: Node, ts: seq<Token>, c: nat, min: nat, max: nat)
    requires Peek(ts) == SepOpenSquare && Canonical(lhs, c) && Level(lhs, min, max) && !Absorbs(lhs, Peek(ts))
    requires Takes(Peek(ts), min, max) && Clean(ParseIndex(lhs, ts, c).0)
    ensures var (t, rest) := ParseIndex(lhs, ts, c);
            InfixRead(lhs, ts, t, rest, c, min, max)
    decreases |ts|, 5
  {
    hide RhsPrecedence, Takes, ParseArgs, Canonical, Absorbs, Level, Yield, Operand;
    FirstRest(ts);
    var a := ParseArgs(Rest(ts), c, SepCloseSquare);
    assert ParseIndex(lhs, ts, c) == (Index(lhs, Next(ts), a.args, a.commas, Next(a.rest)), Rest(a.rest));
    ArgsSound(Rest(ts), c, SepCloseSquare);
    FirstRest(a.rest);
    hide ParseIndex;
    IndexRead(lhs, ts, Next(ts), a.args, a.commas, Next(a.rest), Rest(a.rest), c, min, max);
  }

  lemma IndexRead(
    lhs: Node, ts: seq<Token>, open: Token, args: seq<Node>, commas: seq<Token>, close: Token, rest: seq<Token>,
    c: nat, min: nat, max: nat)
    requires open.kind == SepOpenSquare && close.kind == SepCloseSquare && !Absorbs(lhs, open.kind)
    requires args != [] && Operands(args, c, 0) && Separated(|args|, commas)
    requires Canonical(lhs, c) && Level(lhs, min, max) && Takes(open.kind, min, max)
    requires ts == [open] + (YieldArgs(args, commas) + ([close] + rest))
    ensures InfixRead(lhs, ts, Index(lhs, open, args, commas, close), rest, c, min, max)
  {
    hide RhsPrecedence, Takes, Yield, YieldArgs, Operands, Separated, Canonical, Level, Absorbs;
    IndexFacts(Index(lhs, open, args, commas, close), c, min, max, Peek(rest));
    Joined(Yield(lhs), open, YieldArgs(args, commas), close, [], rest);
  }

  // ----- Primary expressions -----

  lemma {:induction false} PrimarySound(ts: seq<Token>, c: nat, min: nat, max: nat)
    requires !IsOperator(Peek(ts)) && Clean(ParsePrimary(ts, c).0)
    ensures var (t, rest) := ParsePrimary(ts, c);
            ReadTo(ts, t, rest, c) && Level(t, min, max)
    decreases |ts|, 7
  {
    hide RhsPrecedence, Takes, ParsePrimary, ParseId, ParseExpr, Yield, Canonical, Absorbs, Operand, Level, Clean, ReadTo, IsOperator;
    PrimaryIs(ts, c);
    var t := Next(ts);
    FirstRest(ts);
    if t.kind == Keyword(If) {
      SwitchSound(ts, c);
      NotInfix(ParsePrimary(ts, c).0, min, max);
    } else if t.kind == Keyword(Fork) || t.kind == Keyword(Lazy) {
      ForkedSound(ts, c, min, max);
    } else if IsIdToken(t) {
      IdSound(ts, c);
      NotInfix(ParsePrimary(ts, c).0, min, max);
    } else if t.kind == SepOpenParen {
      var (e, mid) := ParseExpr(Rest(ts), c, 0, TOP);
      ExprSound(Rest(ts), c, 0, TOP);
      FirstRest(mid);
      ParenRead(ts, t, e, Next(mid), Rest(mid), c, min, max);
    } else {
      SingleRead(ts, t, Rest(ts), c, min, max);
    }
  }

  /** Without an error there are these kinds of primary expressions. */
  lemma PrimaryIs(ts: seq<Token>, c: nat)
    requires Clean(ParsePrimary(ts, c).0)
    ensures ts != []
    ensures var t, r := Next(ts), ParsePrimary(ts, c);
            if t.kind == Keyword(If) || t.kind == Keyword(Fork) || t.kind == Keyword(Lazy) then true
            else if IsIdToken(t) then r == ParseId(ts, c)
            else if t.kind == SepOpenParen then
              var (e, mid) := ParseExpr(Rest(ts), c, 0, TOP);
              Clean(e) && Next(mid).kind == SepCloseParen && mid != [] && r == (Paren(t, e, Next(mid)), Rest(mid))
            else (t.kind == Literal && r == (LitExpr(t), Rest(ts))) || (t.kind == Keyword(Self) && r == (IdExpr(t), Rest(ts)))
  {
    hide ParseExpr, ParseCall, ParseClauses, ParseElse, ParseId;
  }

  lemma NotInfix(t: Node, min: nat, max: nat)
    requires t.Switch? || t.IdExpr? || t.ConstDecl?
    ensures Level(t, min, max)
  {}

  lemma ParenRead(ts: seq<Token>, open: Token, e: Node, close: Token, rest: seq<Token>, c: nat, min: nat, max: nat)
    requires open.kind == SepOpenParen && close.kind == SepCloseParen && Operand(e, c, 0, TOP)
    requires ts == [open] + (Yield(e) + ([close] + rest))
    ensures ReadTo(ts, Paren(open, e, close), rest, c) && Level(Paren(open, e, close), min, max)
  {
    hide Operand;
    var x := Yield(e);
    assert Yield(Paren(open, e, close)) == [open] + (x + [close]);
    hide Yield;
    assert [open] + (x + ([close] + rest)) == [open] + (x + [close]) + rest;
  }

  lemma SingleRead(ts: seq<Token>, t: Token, rest: seq<Token>, c: nat, min: nat, max: nat)
    requires ts == [t] + rest
    ensures t.kind == Literal ==> ReadTo(ts, LitExpr(t), rest, c) && Level(LitExpr(t), min, max)
    ensures t.kind == Keyword(Self) ==> ReadTo(ts, IdExpr(t), rest, c) && Level(IdExpr(t), min, max)
  {}

  lemma {:induction false} ForkedSound(ts: seq<Token>, c: nat, min: nat, max: nat)
    requires (Peek(ts) == Keyword(Fork) || Peek(ts) == Keyword(Lazy)) && Clean(ParsePrimary(ts, c).0)
    ensures var (t, rest) := ParsePrimary(ts, c);
            ReadTo(ts, t, rest, c) && Level(t, min, max)
    decreases |ts|, 6
  {
    var (lhs, mid) := ParseExpr(Rest(ts), c, 0, CALL_PRECEDENCE);
    assert ParsePrimary(ts, c) == ParseCall([Next(ts)], lhs, mid, c);
    assert mid != [] && Clean(lhs);
    FirstRest(ts);
    ExprSound(Rest(ts), c, 0, CALL_PRECEDENCE);
    CallSound([Next(ts)], lhs, mid, c, min, max);
  }

  lemma {:induction false} IdSound(ts: seq<Token>, c: nat)
    requires ts != [] && IsIdToken(Next(ts)) && Clean(ParseId(ts, c).0)
    ensures var (t, rest) := ParseId(ts, c);
            ReadTo(ts, t, rest, c) && (t.IdExpr? || t.ConstDecl?)
    decreases |ts|, 6
  {
    hide RhsPrecedence, Takes, Canonical, Absorbs, Yield, ParseExpr, ReadTo, Operand;
    var id, mid := Next(ts), Rest(ts);
    FirstRest(ts);
    if Peek(mid) == OpEq {
      var (init, rest) := ParseExpr(Rest(mid), c, ASSIGNMENT_PRECEDENCE, TOP);
      FirstRest(mid);
      ExprSound(Rest(mid), c, ASSIGNMENT_PRECEDENCE, TOP);
      DeclRead(ts, id, Next(mid), init, rest, c);
    } else {
      IdRead(ts, id, mid, c);
    }
  }

  lemma DeclRead(ts: seq<Token>, id: Token, eq: Token, init: Node, rest: seq<Token>, c: nat)
    requires IsIdToken(id) && eq.kind == OpEq && ts == [id] + ([eq] + (Yield(init) + rest))
    requires OperandRead(Yield(init) + rest, init, rest, c, ASSIGNMENT_PRECEDENCE, TOP)
    ensures ReadTo(ts, ConstDecl(id, eq, init), rest, c)
  {
    hide RhsPrecedence, Takes;
    var x := Yield(init);
    assert Yield(ConstDecl(id, eq, init)) == [id, eq] + x;
    hide Yield, Canonical;
    assert [id] + ([eq] + (x + rest)) == [id, eq] + x + rest;
  }

  lemma IdRead(ts: seq<Token>, id: Token, rest: seq<Token>, c: nat)
    requires id.kind == Identifier && Peek(rest) != OpEq && ts == [id] + rest
    ensures ReadTo(ts, IdExpr(id), rest, c)
  {
    hide RhsPrecedence, Takes;
  }

  lemma {:induction false} SwitchSound(ts: seq<Token>, c: nat)
    requires Peek(ts) == Keyword(If) && Clean(ParsePrimary(ts, c).0)
    ensures var (t, rest) := ParsePrimary(ts, c);
            ReadTo(ts, t, rest, c) && t.Switch?
    decreases |ts|, 6
  {
    hide RhsPrecedence, Takes, Canonical, Absorbs, Yield, Clauses, CanonicalElse, ParseClauses, ParseElse;
    var (clauses, mid) := ParseClauses(ts, c);
    var (t, rest) := ParsePrimary(ts, c);
    ClausesSound(ts, c);
    if Peek(mid) == Keyword(Else) {
      var (other, rest2) := ParseElse(mid, c);
      assert t == Switch(clauses, [other]) && rest == rest2;
      assert AllClean([other]) && Clean([other][0]);
      ElseSound(mid, c);
      ElseRead(ts, clauses, mid, other, rest, c);
    } else {
      assert t == Switch(clauses, []) && rest == mid;
      NoElseRead(ts, clauses, mid, c);
    }
  }

  lemma ElseRead(ts: seq<Token>, clauses: seq<Node>, mid: seq<Token>, other: Node, rest: seq<Token>, c: nat)
    requires ts == YieldAll(clauses) + mid && clauses != [] && Clauses(clauses, c, End)
    requires !LastAbsorbs(clauses, Keyword(Else))
    requires other.SwitchElse? && mid == Yield(other) + rest && CanonicalElse(other, c) && !Absorbs(other, Peek(rest))
    ensures ReadTo(ts, Switch(clauses, [other]), rest, c)
  {
    hide RhsPrecedence, Takes, CanonicalElse, Clauses;
    ClausesNext(clauses, c, Keyword(Else));
    assert YieldAll([other]) == Yield(other) + [] by { assert [other][1..] == []; }
    assert YieldAll(clauses) + (Yield(other) + rest) == YieldAll(clauses) + YieldAll([other]) + rest;
    assert [other][|[other]| - 1] == other;
    assert LastAbsorbs([other], Peek(rest)) == Absorbs(other, Peek(rest));
  }

  lemma NoElseRead(ts: seq<Token>, clauses: seq<Node>, rest: seq<Token>, c: nat)
    requires ts == YieldAll(clauses) + rest && clauses != [] && Clauses(clauses, c, End)
    requires !LastAbsorbs(clauses, Peek(rest)) && Peek(rest) != Keyword(If) && Peek(rest) != Keyword(Else)
    ensures ReadTo(ts, Switch(clauses, []), rest, c)
  {
    hide RhsPrecedence, Takes, Clauses;
    assert YieldAll([]) == [] && YieldAll(clauses) + rest == YieldAll(clauses) + [] + rest;
  }

  lemma {:induction false} ElseSound(ts: seq<Token>, c: nat)
    requires Peek(ts) == Keyword(Else) && Clean(ParseElse(ts, c).0)
    ensures var (t, rest) := ParseElse(ts, c);
            t.SwitchElse? && ts == Yield(t) + rest && CanonicalElse(t, c) && !Absorbs(t, Peek(rest))
    decreases |ts|, 5
  {
    hide RhsPrecedence, Takes;
    var kw, arrow, mid := Next(ts), Next(Rest(ts)), Rest(Rest(ts));
    assert arrow.kind == SepArrow;
    FirstRest(ts);
    FirstRest(Rest(ts));
    var (branch, rest) := ParseExpr(mid, c, 0, TOP);
    ExprSound(mid, c, 0, TOP);
    assert [kw] + ([arrow] + (Yield(branch) + rest)) == [kw, arrow] + Yield(branch) + rest;
  }

  /** The last clause of a list may be followed by anything it does not absorb. */
  lemma {:induction false} ClausesNext(ts: seq<Node>, c: nat, next: Kind)
    requires Clauses(ts, c, End) && !LastAbsorbs(ts, next)
    ensures Clauses(ts, c, next)
    decreases |ts|
  {
    if |ts| > 1 {
      assert ts[1..][|ts| - 2] == ts[|ts| - 1];
      ClausesNext(ts[1..], c, next);
    }
  }

  lemma {:induction false} ClausesSound(ts: seq<Token>, c: nat)
    requires Peek(ts) == Keyword(If) && AllClean(ParseClauses(ts, c).0)
    ensures var (clauses, rest) := ParseClauses(ts, c);
            && ts == YieldAll(clauses) + rest && clauses != [] && Clauses(clauses, c, End)
            && !LastAbsorbs(clauses, Peek(rest)) && Peek(rest) != Keyword(If)
    decreases |ts|, 5
  {
    hide RhsPrecedence, Takes, ParseClauses, ParseIf, Clauses, CanonicalIf, Absorbs, LastAbsorbs, Yield, YieldAll, AllClean;
    var (x, mid) := ParseIf(ts, c);
    ClausesUnfold(ts, c);
    IfSound(ts, c);
    if Peek(mid) == Keyword(If) {
      var (clauses, rest) := ParseClauses(mid, c);
      ClausesSound(mid, c);
      FirstClause(x, clauses, rest, c);
    } else {
      OneClause(x, mid, c);
    }
  }

  lemma FirstClause(x: Node, clauses: seq<Node>, rest: seq<Token>, c: nat)
    requires x.SwitchIf? && CanonicalIf(x, c) && !Absorbs(x, Keyword(If)) && clauses != [] && Clauses(clauses, c, End)
    requires !LastAbsorbs(clauses, Peek(rest))
    ensures Yield(x) + (YieldAll(clauses) + rest) == YieldAll([x] + clauses) + rest
    ensures Clauses([x] + clauses, c, End) && !LastAbsorbs([x] + clauses, Peek(rest))
  {
    hide RhsPrecedence, Takes, Canonical, CanonicalIf, Absorbs;
    var all := [x] + clauses;
    assert all[1..] == clauses && all[|clauses|] == clauses[|clauses| - 1];
    var a, b := Yield(x), YieldAll(clauses);
    assert YieldAll(all) == a + b;
    hide Yield, YieldAll;
    assert a + (b + rest) == a + b + rest;
  }

  lemma OneClause(x: Node, rest: seq<Token>, c: nat)
    requires x.SwitchIf? && CanonicalIf(x, c) && !Absorbs(x, Peek(rest))
    ensures YieldAll([x]) == Yield(x) && Clauses([x], c, End) && !LastAbsorbs([x], Peek(rest))
  {
    hide RhsPrecedence, Takes, Canonical, CanonicalIf, Yield;
    var a := Yield(x);
    assert [x][1..] == [] && YieldAll([x]) == a + [] && a + [] == a && [x][|[x]| - 1] == x;
    assert LastAbsorbs([x], Peek(rest)) == Absorbs(x, Peek(rest));
  }

  lemma ClausesUnfold(ts: seq<Token>, c: nat)
    requires AllClean(ParseClauses(ts, c).0)
    ensures var (x, mid) := ParseIf(ts, c);
            && Clean(x)
            && (Peek(mid) == Keyword(If) ==>
                  AllClean(ParseClauses(mid, c).0)
                  && ParseClauses(ts, c) == ([x] + ParseClauses(mid, c).0, ParseClauses(mid, c).1))
            && (Peek(mid) != Keyword(If) ==> ParseClauses(ts, c) == ([x], mid))
  {
    var (x, mid) := ParseIf(ts, c);
    if Peek(mid) == Keyword(If) {
      assert ([x] + ParseClauses(mid, c).0)[1..] == ParseClauses(mid, c).0;
    }
  }

  lemma {:induction false} IfSound(ts: seq<Token>, c: nat)
    requires Peek(ts) == Keyword(If) && Clean(ParseIf(ts, c).0)
    ensures var (t, rest) := ParseIf(ts, c);
            t.SwitchIf? && ts == Yield(t) + rest && CanonicalIf(t, c) && !Absorbs(t, Peek(rest))
    decreases |ts|, 4
  {
    hide RhsPrecedence, Takes, Canonical, ParseExpr, Operand, Absorbs, Yield, CanonicalIf;
    var (cond, mid) := ParseExpr(Rest(ts), c, 0, TOP);
    var (branch, rest) := ParseExpr(Rest(mid), c, 0, TOP);
    assert Next(mid).kind == SepArrow && Clean(cond) && Clean(branch);
    assert ParseIf(ts, c) == (SwitchIf(Next(ts), cond, Next(mid), branch), rest);
    FirstRest(ts);
    FirstRest(mid);
    ExprSound(Rest(ts), c, 0, TOP);
    ExprSound(Rest(mid), c, 0, TOP);
    hide ParseIf, Clean;
    IfRead(ts, Next(ts), cond, Next(mid), branch, rest, c);
  }

  lemma IfRead(ts: seq<Token>, kw: Token, cond: Node, arrow: Token, branch: Node, rest: seq<Token>, c: nat)
    requires kw.kind == Keyword(If) && arrow.kind == SepArrow && Operand(cond, c, 0, TOP) && Operand(branch, c, 0, TOP)
    requires !Absorbs(cond, SepArrow) && !Absorbs(branch, Peek(rest)) && !Takes(Peek(rest), 0, TOP)
    requires ts == [kw] + (Yield(cond) + ([arrow] + (Yield(branch) + rest)))
    ensures var t := SwitchIf(kw, cond, arrow, branch);
            ts == Yield(t) + rest && CanonicalIf(t, c) && !Absorbs(t, Peek(rest))
  {
    hide RhsPrecedence, Takes, Yield, CanonicalIf, Operand, Absorbs;
    var t := SwitchIf(kw, cond, arrow, branch);
    IfFacts(t, c, Peek(rest));
    var x, y := Yield(cond), Yield(branch);
    assert [kw] + (x + ([arrow] + (y + rest))) == [kw] + (x + ([arrow] + y)) + rest;
  }

  lemma IfFacts(t: Node, c: nat, k: Kind)
    requires t.SwitchIf? && t.kw.kind == Keyword(If) && t.arrow.kind == SepArrow && !Absorbs(t.cond, SepArrow)
    requires Operand(t.cond, c, 0, TOP) && Operand(t.branch, c, 0, TOP)
    ensures CanonicalIf(t, c) && (Absorbs(t, k) <==> Takes(k, 0, TOP) || Absorbs(t.branch, k))
    ensures Yield(t) == [t.kw] + (Yield(t.cond) + ([t.arrow] + Yield(t.branch)))
  {
    hide RhsPrecedence, Takes, Operand;
  }

  /** The second main theorem: for an error-free expression t, the parser returns t and leaves `rest`
      exactly when the input is the yield of t followed by `rest`, t is canonical and below the depth
      limit, and the next token neither continues t nor an expression at its right edge. */
  lemma ParserIsExact(ts: seq<Token>, depth: nat, min: nat, max: nat, t: Node, rest: seq<Token>)
    requires Clean(t)
    ensures ParseExpr(ts, depth, min, max) == (t, rest) <==> OperandRead(ts, t, rest, depth, min, max)
  {
    if ParseExpr(ts, depth, min, max) == (t, rest) { ExprSound(ts, depth, min, max); }
    if OperandRead(ts, t, rest, depth, min, max) { ParserInvertsYield(t, depth, min, max, rest); }
  }
}
