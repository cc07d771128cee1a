/** Expressions: tokens, parse trees, operator precedences and what the parser returns for a list of
    tokens. Type parameter lists, lambdas and intrinsics are not part of it. */
module Parsing {

  datatype Kw = If | Else | Is | As | Fork | Lazy | Self | OtherKw

  datatype Kind =
    | End
    | OpPlus | OpPlusPlus | OpMinus | OpMinusMinus | OpStar | OpSlash | OpRem | OpAmp | OpAmpAmp | OpPipe
    | OpPipePipe | OpHat | OpTilde | OpShiftL | OpShiftR | OpEq | OpEqEq | OpBang | OpBangBang | OpBangEq
    | OpLe | OpLeEq | OpGt | OpGtEq | OpSemi | OpQMark | OpQMarkQMark | OpDot | OpColonColon
    | OpSquareSquare | OpParenParen
    | SepOpenParen | SepCloseParen | SepOpenSquare | SepCloseSquare | SepComma | SepColon | SepArrow
    | Literal | Keyword(kw: Kw) | Identifier | Discard | LineComment | LexError

  datatype Token = Token(kind: Kind, text: string)

  datatype Node =
    | LitExpr(lit: Token)
    | IdExpr(id: Token)
    | ConstDecl(id: Token, eq: Token, init: Node)
    | Unary(op: Token, operand: Node)
    | Binary(lhs: Node, op: Token, rhs: Node)
    | Call(modifiers: seq<Token>, lhs: Node, open: Token, args: seq<Node>, commas: seq<Token>, close: Token)
    | Index(lhs: Node, open: Token, args: seq<Node>, commas: seq<Token>, close: Token)
    | Field(lhs: Node, dot: Token, name: Token)
    | TypeTest(lhs: Node, kw: Token, typ: Token, bind: seq<Token>)
    | Conditional(cond: Node, qmark: Token, thenExpr: Node, colon: Token, elseExpr: Node)
    | Group(subs: seq<Node>, semis: seq<Token>)
    | Paren(open: Token, expr: Node, close: Token)
    | Switch(clauses: seq<Node>, other: seq<Node>)
    | SwitchIf(kw: Token, cond: Node, arrow: Token, branch: Node)
    | SwitchElse(kw: Token, arrow: Token, branch: Node)
    | Error(tokens: seq<Token>, nodes: seq<Node>)

  // ----- Precedences -----

  const CALL_PRECEDENCE := 17
  const FIELD_PRECEDENCE := 16
  const DOUBLE_QMARK_PRECEDENCE := 15
  const UNARY_PRECEDENCE := 14
  const MULTIPLICATIVE_PRECEDENCE := 13
  const ADDITIVE_PRECEDENCE := 12
  const SHIFT_PRECEDENCE := 11
  const TYPE_TEST_PRECEDENCE := 10
  const RELATIONAL_PRECEDENCE := 9
  const EQUALITY_PRECEDENCE := 8
  const AND_PRECEDENCE := 7
  const XOR_PRECEDENCE := 6
  const OR_PRECEDENCE := 5
  const BANG_PRECEDENCE := 4
  const CONDITIONAL_PRECEDENCE := 3
  const ASSIGNMENT_PRECEDENCE := 2
  const GROUPING_PRECEDENCE := 1

  /** The precedence that no operator reaches. */
  const TOP := 99

  const MAX_RECURSION_DEPTH := 100

  function LhsPrecedence(k: Kind): nat {
    match k
    case OpPlus => UNARY_PRECEDENCE
    case OpPlusPlus => UNARY_PRECEDENCE
    case OpMinus => UNARY_PRECEDENCE
    case OpMinusMinus => UNARY_PRECEDENCE
    case OpBang => UNARY_PRECEDENCE
    case OpTilde => UNARY_PRECEDENCE
    case OpQMark => UNARY_PRECEDENCE
    case _ => 0
  }

  function RhsPrecedence(k: Kind): (r: nat)
    ensures r <= CALL_PRECEDENCE
  {
    match k
    case OpParenParen => CALL_PRECEDENCE
    case SepOpenParen => CALL_PRECEDENCE
    case SepOpenSquare => CALL_PRECEDENCE
    case OpQMarkQMark => DOUBLE_QMARK_PRECEDENCE
    case OpDot => FIELD_PRECEDENCE
    case OpStar => MULTIPLICATIVE_PRECEDENCE
    case OpSlash => MULTIPLICATIVE_PRECEDENCE
    case OpRem => MULTIPLICATIVE_PRECEDENCE
    case OpPlus => ADDITIVE_PRECEDENCE
    case OpMinus => ADDITIVE_PRECEDENCE
    case OpColonColon => ADDITIVE_PRECEDENCE
    case OpTilde => ADDITIVE_PRECEDENCE
    case OpShiftL => SHIFT_PRECEDENCE
    case OpShiftR => SHIFT_PRECEDENCE
    case OpLe => RELATIONAL_PRECEDENCE
    case OpLeEq => RELATIONAL_PRECEDENCE
    case OpGt => RELATIONAL_PRECEDENCE
    case OpGtEq => RELATIONAL_PRECEDENCE
    case OpEqEq => EQUALITY_PRECEDENCE
    case OpBangEq => EQUALITY_PRECEDENCE
    case OpAmp => AND_PRECEDENCE
    case OpAmpAmp => AND_PRECEDENCE
    case OpHat => XOR_PRECEDENCE
    case OpPipe => OR_PRECEDENCE
    case OpPipePipe => OR_PRECEDENCE
    case OpBang => BANG_PRECEDENCE
    case OpBangBang => BANG_PRECEDENCE
    case OpQMark => CONDITIONAL_PRECEDENCE
    case OpSemi => GROUPING_PRECEDENCE
    case Keyword(kw) => if kw == Is || kw == As then TYPE_TEST_PRECEDENCE else 0
    case _ => 0
  }

  predicate IsRightAssociative(k: Kind) {
    k == OpColonColon
  }

  predicate IsOperator(k: Kind) {
    match k
    case End => false
    case SepOpenParen => false
    case SepCloseParen => false
    case SepOpenSquare => false
    case SepCloseSquare => false
    case SepComma => false
    case SepColon => false
    case SepArrow => false
    case Literal => false
    case Keyword(_) => false
    case Identifier => false
    case Discard => false
    case LineComment => false
    case LexError => false
    case _ => true
  }

  /** The loop over the rest of an expression goes on at k. */
  predicate Takes(k: Kind, min: nat, max: nat) {
    var prec := RhsPrecedence(k);
    prec != 0 && prec >= min && (IsRightAssociative(k) || prec != min) && prec < max
  }

  // ----- Tokens still to be read -----

  const END := Token(End, "")

  function Next(ts: seq<Token>): Token {
    if ts == [] then END else ts[0]
  }

  function Peek(ts: seq<Token>): Kind {
    Next(ts).kind
  }

  function Rest(ts: seq<Token>): seq<Token> {
    if ts == [] then [] else ts[1..]
  }

  /** The input never contains the token that marks its end. */
  predicate NoEnd(ts: seq<Token>) {
    forall t | t in ts :: t.kind != End
  }

  type Parsed = (Node, seq<Token>)

  datatype Args = Args(args: seq<Node>, commas: seq<Token>, missingComma: bool, rest: seq<Token>)

  predicate ValidParentheses(open: Token, close: Token) {
    (open.kind == SepOpenParen && close.kind == SepCloseParen)
    || (open.kind == OpParenParen && close.kind == OpParenParen)
  }

  predicate ValidType(t: Token) {
    t.kind.Identifier? || t.kind.Keyword?
  }

  predicate IsIdToken(t: Token) {
    t.kind == Identifier || t.kind == Discard
  }

  // ----- What the parser returns -----

  /** An expression whose operators have a precedence from `min` to below `max`; `depth` is the number
      of expressions that enclose it. */
  function ParseExpr(ts: seq<Token>, depth: nat, min: nat, max: nat): (r: Parsed)
    ensures |r.1| <= |ts| && (ts != [] ==> |r.1| < |ts|)
    decreases |ts|, 9
  {
    if depth + 1 >= MAX_RECURSION_DEPTH then (Error([Next(ts)], []), Rest(ts))
    else
      var (lhs, rest) := ParseLhs(ts, depth + 1);
      ParseLoop(lhs, rest, depth + 1, min, max)
  }

  function ParseLhs(ts: seq<Token>, depth: nat): (r: Parsed)
    ensures |r.1| <= |ts| && (ts != [] ==> |r.1| < |ts|)
    decreases |ts|, 8
  {
    if IsOperator(Peek(ts)) then
      var (operand, rest) := ParseExpr(Rest(ts), depth, LhsPrecedence(Peek(ts)), TOP);
      (if LhsPrecedence(Peek(ts)) == 0 then Error([Next(ts)], [operand]) else Unary(Next(ts), operand), rest)
    else ParsePrimary(ts, depth)
  }

  function ParseLoop(lhs: Node, ts: seq<Token>, depth: nat, min: nat, max: nat): (r: Parsed)
    ensures |r.1| <= |ts|
    decreases |ts|, 7
  {
    if !Takes(Peek(ts), min, max) then (lhs, ts)
    else
      var (lhs1, rest) := ParseInfix(lhs, ts, depth);
      ParseLoop(lhs1, rest, depth, min, max)
  }

  /** One operator and what belongs to it. */
  function ParseInfix(lhs: Node, ts: seq<Token>, depth: nat): (r: Parsed)
    requires ts != []
    ensures |r.1| < |ts|
    decreases |ts|, 6
  {
    var k := Peek(ts);
    if k == SepOpenParen || k == OpParenParen then ParseCall([], lhs, ts, depth)
    else if k == OpSemi then
      var (subs, semis, rest) := ParseGroup(ts, depth, RhsPrecedence(k));
      (Group([lhs] + subs, semis), rest)
    else if k == OpQMark then ParseConditional(lhs, ts, depth)
    else if k == OpDot then
      var name, rest := Next(Rest(ts)), Rest(Rest(ts));
      (if name.kind == Identifier then Field(lhs, Next(ts), name) else Error([Next(ts), name], [lhs]), rest)
    else if k == SepOpenSquare then ParseIndex(lhs, ts, depth)
    else if k == Keyword(Is) || k == Keyword(As) then ParseTypeTest(lhs, ts)
    else
      var (rhs, rest) := ParseExpr(Rest(ts), depth, RhsPrecedence(k), TOP);
      (Binary(lhs, Next(ts), rhs), rest)
  }

  function ParseTypeTest(lhs: Node, ts: seq<Token>): (r: Parsed)
    requires ts != []
    ensures |r.1| < |ts|
  {
    var typ, rest := Next(Rest(ts)), Rest(Rest(ts));
    if Peek(ts) == Keyword(As) then
      var id := Next(rest);
      (if ValidType(typ) && IsIdToken(id) then TypeTest(lhs, Next(ts), typ, [id])
       else Error([Next(ts), typ, id], [lhs]), Rest(rest))
    else (if ValidType(typ) then TypeTest(lhs, Next(ts), typ, []) else Error([Next(ts), typ], [lhs]), rest)
  }

  function ParseCall(modifiers: seq<Token>, lhs: Node, ts: seq<Token>, depth: nat): (r: Parsed)
    ensures |r.1| <= |ts| && (ts != [] ==> |r.1| < |ts|)
    decreases |ts|, 5
  {
    var open := Next(ts);
    if open.kind == OpParenParen then (Call(modifiers, lhs, open, [], [], open), Rest(ts))
    else
      var a := if ts == [] then Args([], [], false, []) else ParseArgs(Rest(ts), depth, SepCloseParen);
      var close := Next(a.rest);
      var valid := ValidParentheses(open, close) && !a.missingComma
        && |a.commas| == (if a.args == [] then 0 else |a.args| - 1);
      (if valid then Call(modifiers, lhs, open, a.args, a.commas, close)
       else Error(modifiers + [open] + a.commas + [close], [lhs] + a.args), Rest(a.rest))
  }

  function ParseIndex(lhs: Node, ts: seq<Token>, depth: nat): (r: Parsed)
    requires ts != []
    ensures |r.1| < |ts|
    decreases |ts|, 5
  {
    var a := ParseArgs(Rest(ts), depth, SepCloseSquare);
    var close := Next(a.rest);
    var valid := close.kind == SepCloseSquare && a.args != [] && !a.missingComma && |a.commas| == |a.args| - 1;
    (if valid then Index(lhs, Next(ts), a.args, a.commas, close)
     else Error([Next(ts)] + a.commas + [close], [lhs] + a.args), Rest(a.rest))
  }

  /** Arguments up to, but without, the closing token. */
  function ParseArgs(ts: seq<Token>, depth: nat, close: Kind): (r: Args)
    ensures |r.rest| <= |ts|
    decreases |ts|, 10
  {
    if Peek(ts) == close || ts == [] then Args([], [], false, ts)
    else
      var (arg, rest) := ParseExpr(ts, depth, 0, TOP);
      if Peek(rest) == SepComma then
        var a := ParseArgs(Rest(rest), depth, close);
        Args([arg] + a.args, [Next(rest)] + a.commas, a.missingComma, a.rest)
      else
        var a := ParseArgs(rest, depth, close);
        Args([arg] + a.args, a.commas, a.missingComma || Peek(rest) != close, a.rest)
  }

  /** Further elements of a group, each after a semicolon. */
  function ParseGroup(ts: seq<Token>, depth: nat, prec: nat): (r: (seq<Node>, seq<Token>, seq<Token>))
    ensures |r.2| <= |ts| && (Peek(ts) == OpSemi ==> |r.2| < |ts|)
    decreases |ts|, 5
  {
    if Peek(ts) != OpSemi then ([], [], ts)
    else
      var (sub, rest) := ParseExpr(Rest(ts), depth, prec, TOP);
      var (subs, semis, rest2) := ParseGroup(rest, depth, prec);
      ([sub] + subs, [Next(ts)] + semis, rest2)
  }

  function ParseConditional(cond: Node, ts: seq<Token>, depth: nat): (r: Parsed)
    requires ts != []
    ensures |r.1| < |ts|
    decreases |ts|, 5
  {
    var (a, rest) := ParseExpr(Rest(ts), depth, GROUPING_PRECEDENCE, TOP);
    var colon := Next(rest);
    var (b, rest2) := ParseExpr(Rest(rest), depth, GROUPING_PRECEDENCE, TOP);
    (if colon.kind == SepColon then Conditional(cond, Next(ts), a, colon, b)
     else Error([Next(ts), colon], [cond, a, b]), rest2)
  }

  function ParsePrimary(ts: seq<Token>, depth: nat): (r: Parsed)
    ensures |r.1| <= |ts| && (ts != [] ==> |r.1| < |ts|)
    decreases |ts|, 7
  {
    var t := Next(ts);
    match t.kind
    case Literal => (LitExpr(t), Rest(ts))
    case Identifier => ParseId(ts, depth)
    case Discard => ParseId(ts, depth)
    case Keyword(kw) =>
      if kw == If then
        var (clauses, rest) := ParseClauses(ts, depth);
        if Peek(rest) == Keyword(Else) then
          var (other, rest2) := ParseElse(rest, depth);
          (Switch(clauses, [other]), rest2)
        else (Switch(clauses, []), rest)
      else if kw == Fork || kw == Lazy then
        var (lhs, rest) := ParseExpr(Rest(ts), depth, 0, CALL_PRECEDENCE);
        ParseCall([t], lhs, rest, depth)
      else if kw == Self then (IdExpr(t), Rest(ts))
      else (Error([t], []), Rest(ts))
    case SepOpenParen =>
      var (e, rest) := ParseExpr(Rest(ts), depth, 0, TOP);
      var close := Next(rest);
      (if close.kind == SepCloseParen then Paren(t, e, close) else Error([t, close], [e]), Rest(rest))
    case _ => (Error([t], []), Rest(ts))
  }

  function ParseId(ts: seq<Token>, depth: nat): (r: Parsed)
    requires ts != []
    ensures |r.1| < |ts|
    decreases |ts|, 6
  {
    var id, rest := Next(ts), Rest(ts);
    if Peek(rest) == OpEq then
      var (init, rest2) := ParseExpr(Rest(rest), depth, ASSIGNMENT_PRECEDENCE, TOP);
      (ConstDecl(id, Next(rest), init), rest2)
    else (if id.kind == Identifier then IdExpr(id) else Error([id], []), rest)
  }

  function ParseClauses(ts: seq<Token>, depth: nat): (r: (seq<Node>, seq<Token>))
    ensures |r.1| <= |ts| && (ts != [] ==> |r.1| < |ts|)
    decreases |ts|, 6
  {
    var (clause, rest) := ParseIf(ts, depth);
    if Peek(rest) == Keyword(If) then
      var (clauses, rest2) := ParseClauses(rest, depth);
      ([clause] + clauses, rest2)
    else ([clause], rest)
  }

  function ParseIf(ts: seq<Token>, depth: nat): (r: Parsed)
    ensures |r.1| <= |ts| && (ts != [] ==> |r.1| < |ts|)
    decreases |ts|, 5
  {
    if ts == [] then (Error([END], []), [])
    else
      var (cond, rest) := ParseExpr(Rest(ts), depth, 0, TOP);
      var arrow := Next(rest);
      var (branch, rest2) := ParseExpr(Rest(rest), depth, 0, TOP);
      (if arrow.kind == SepArrow then SwitchIf(Next(ts), cond, arrow, branch)
       else Error([Next(ts), arrow], [cond, branch]), rest2)
  }

  function ParseElse(ts: seq<Token>, depth: nat): (r: Parsed)
    requires ts != []
    ensures |r.1| < |ts|
    decreases |ts|, 5
  {
    var arrow := Next(Rest(ts));
    var (branch, rest) := ParseExpr(Rest(Rest(ts)), depth, 0, TOP);
    (if arrow.kind == SepArrow then SwitchElse(Next(ts), arrow, branch) else Error([Next(ts), arrow], [branch]), rest)
  }
}
