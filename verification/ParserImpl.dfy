/** The parser as it runs: a buffer of tokens read ahead, the input behind it and a depth counter. Every
    method is proved to return what the functions of Parsing say and to restore the counter. */
module ParserImpl {
  import opened Parsing

  /** The buffered tokens before the end marker. */
  function BeforeEnd(ts: seq<Token>): (r: seq<Token>)
    ensures NoEnd(r)
  {
    if ts == [] || ts[0].kind == End then [] else [ts[0]] + BeforeEnd(ts[1..])
  }

  class Parser {
    const input: seq<Token>
    var readBuffer: seq<Token>
    var pos: nat
    var exprRecursionDepth: nat

    constructor (input: seq<Token>)
      requires NoEnd(input)
      ensures Valid() && Remaining() == input && exprRecursionDepth == 0
    {
      this.input := input;
      readBuffer, pos, exprRecursionDepth := [], 0, 0;
    }

    /** The counter is below its limit whenever a method starts or ends, and once the end marker has been
        buffered nothing else comes. */
    ghost predicate Valid()
      reads this
    {
      && exprRecursionDepth < MAX_RECURSION_DEPTH && pos <= |input| && NoEnd(input)
      && (forall i | 0 <= i < |readBuffer| && readBuffer[i].kind == End ::
            pos == |input| && forall j | i <= j < |readBuffer| :: readBuffer[j] == END)
    }

    /** The tokens still to be consumed. */
    ghost function Remaining(): seq<Token>
      requires Valid()
      reads this
    {
      BeforeEnd(readBuffer) + input[pos..]
    }

    method GetFromInput() returns (t: Token)
      requires Valid()
      modifies this`pos
      ensures t == Next(old(input[pos..])) && pos <= |input| && input[pos..] == Rest(old(input[pos..]))
    {
      if pos == |input| { return END; }
      t := input[pos];
      pos := pos + 1;
    }

    method ConsumeToken() returns (t: Token)
      requires Valid()
      modifies this`readBuffer, this`pos
      ensures Valid() && t == Next(old(Remaining())) && Remaining() == Rest(old(Remaining()))
    {
      if readBuffer != [] {
        t := readBuffer[0];
        ghost var before := readBuffer;
        readBuffer := readBuffer[1..];
        if t.kind == End {
          assert BeforeEnd(readBuffer) == [];
        } else {
          assert [t] + BeforeEnd(readBuffer) + input[pos..] == [t] + (BeforeEnd(readBuffer) + input[pos..]);
        }
      } else {
        t := GetFromInput();
        assert input == old(input[..pos]) + old(input[pos..]);
      }
    }

    method PeekToken(ahead: nat) returns (t: Token)
      requires Valid()
      modifies this`readBuffer, this`pos
      ensures Valid() && Remaining() == old(Remaining())
      ensures t == if ahead < |Remaining()| then Remaining()[ahead] else END
    {
      while |readBuffer| <= ahead
        invariant Valid() && Remaining() == old(Remaining())
        decreases ahead + 1 - |readBuffer|
      {
        ghost var before, rest := readBuffer, input[pos..];
        var next := GetFromInput();
        if rest != [] {
          assert next in input by { assert input[|input| - |rest|] == rest[0]; }
          assert forall i | 0 <= i < |before| :: before[i].kind != End;
        }
        readBuffer := readBuffer + [next];
        Buffered(before, next, rest);
      }
      t := readBuffer[ahead];
      InBuffer(readBuffer, input[pos..], ahead);
    }

    // ----- Expressions -----

    /** One step of the parser: the node it returns and the tokens it leaves are those of the given
        result, and the depth counter is back where it was. */
    twostate predicate Parsed(n: Node, r: (Node, seq<Token>))
      reads this
    {
      Valid() && (n, Remaining()) == r && exprRecursionDepth == old(exprRecursionDepth)
    }

    method NextExpr(minPrecedence: nat, maxPrecedence: nat) returns (lhs: Node)
      requires Valid()
      modifies this
      ensures Parsed(lhs, old(ParseExpr(Remaining(), exprRecursionDepth, minPrecedence, maxPrecedence)))
      decreases |Remaining()|, 9
    {
      exprRecursionDepth := exprRecursionDepth + 1;
      if exprRecursionDepth >= MAX_RECURSION_DEPTH {
        exprRecursionDepth := exprRecursionDepth - 1;
        var t := ConsumeToken();
        return Error([t], []);
      }

      ghost var depth, all := exprRecursionDepth, ParseExpr(Remaining(), old(exprRecursionDepth), minPrecedence, maxPrecedence);
      ghost var start := |Remaining()|;
      lhs := NextExprLhs();
      var nextToken := PeekToken(0);
      while Takes(nextToken.kind, minPrecedence, maxPrecedence)
        invariant Valid() && exprRecursionDepth == depth && nextToken == Next(Remaining())
        invariant ParseLoop(lhs, Remaining(), depth, minPrecedence, maxPrecedence) == all
        invariant |Remaining()| <= start && (start > 0 ==> |Remaining()| < start)
        decreases |Remaining()|
      {
        lhs := NextExprInfix(lhs, nextToken.kind);
        nextToken := PeekToken(0);
      }
      exprRecursionDepth := exprRecursionDepth - 1;
    }

    method NextExprLhs() returns (n: Node)
      requires Valid()
      modifies this
      ensures Parsed(n, old(ParseLhs(Remaining(), exprRecursionDepth)))
      decreases |Remaining()|, 8
    {
      var nextToken := PeekToken(0);
      if IsOperator(nextToken.kind) {
        var opToken := ConsumeToken();
        var precedence := LhsPrecedence(opToken.kind);
        var operand := NextExpr(precedence, TOP);
        if precedence == 0 { return Error([opToken], [operand]); }
        n := Unary(opToken, operand);
      } else {
        n := NextExprPrimary();
      }
    }

    /** The operator that comes next and what belongs to it. */
    method NextExprInfix(lhs: Node, k: Kind) returns (n: Node)
      requires Valid() && Remaining() != [] && k == Peek(Remaining())
      modifies this
      ensures Parsed(n, old(ParseInfix(lhs, Remaining(), exprRecursionDepth)))
      decreases |Remaining()|, 6
    {
      hide Takes, ParseExpr, ParseCall, ParseIndex, ParseConditional, ParseTypeTest, ParseGroup;
      if k == SepOpenParen || k == OpParenParen {
        n := NextExprCall(lhs, []);
      } else if k == OpSemi {
        n := NextExprGroup(lhs, RhsPrecedence(k));
      } else if k == OpQMark {
        n := NextExprConditional(lhs);
      } else if k == OpDot {
        n := NextExprField(lhs);
      } else if k == SepOpenSquare {
        n := NextExprIndex(lhs);
      } else if k == Keyword(Is) || k == Keyword(As) {
        n := NextExprIs(lhs);
      } else {
        var op := ConsumeToken();
        var rhs := NextExpr(RhsPrecedence(k), TOP);
        n := Binary(lhs, op, rhs);
      }
    }

    method NextExprGroup(firstExpr: Node, precedence: nat) returns (n: Node)
      requires Valid()
      modifies this
      ensures Valid() && exprRecursionDepth == old(exprRecursionDepth)
      ensures var (subs, semis, rest) := old(ParseGroup(Remaining(), exprRecursionDepth, precedence));
              n == Group([firstExpr] + subs, semis) && Remaining() == rest
      decreases |Remaining()|, 5
    {
      hide BeforeEnd, NoEnd, ParseExpr;
      var subExprs, semis: seq<Token> := [firstExpr], [];
      ghost var depth, all := exprRecursionDepth, ParseGroup(Remaining(), exprRecursionDepth, precedence);
      var next := PeekToken(0);
      assert [] + all.1 == all.1;
      while next.kind == OpSemi
        invariant Valid() && exprRecursionDepth == depth && next == Next(Remaining())
        invariant |Remaining()| <= |old(Remaining())|
        invariant var (subs, more, rest) := ParseGroup(Remaining(), depth, precedence);
                  subExprs + subs == [firstExpr] + all.0 && semis + more == all.1 && rest == all.2
        decreases |Remaining()|
      {
        ghost var before := ParseGroup(Remaining(), depth, precedence);
        var semi := ConsumeToken();
        var sub := NextExpr(precedence, TOP);
        ghost var after := ParseGroup(Remaining(), depth, precedence);
        assert before == ([sub] + after.0, [semi] + after.1, after.2);
        assert subExprs + ([sub] + after.0) == subExprs + [sub] + after.0;
        assert semis + ([semi] + after.1) == semis + [semi] + after.1;
        semis := semis + [semi];
        subExprs := subExprs + [sub];
        next := PeekToken(0);
      }
      assert subExprs + [] == subExprs && semis + [] == semis;
      n := Group(subExprs, semis);
    }

    method NextExprPrimary() returns (n: Node)
      requires Valid()
      modifies this
      ensures Parsed(n, old(ParsePrimary(Remaining(), exprRecursionDepth)))
      decreases |Remaining()|, 7
    {
      hide ParseExpr, ParseCall, ParseClauses, ParseElse, ParseId, BeforeEnd, NoEnd;
      var nextTok := PeekToken(0);
      match nextTok.kind
      case Literal =>
        var t := ConsumeToken();
        n := LitExpr(t);
      case Identifier => n := NextExprId();
      case Discard => n := NextExprId();
      case Keyword(kw) =>
        if kw == If {
          n := NextExprSwitch();
        } else if kw == Fork || kw == Lazy {
          var modifier := ConsumeToken();
          var lhs := NextExpr(0, CALL_PRECEDENCE);
          n := NextExprCall(lhs, [modifier]);
        } else {
          var t := ConsumeToken();
          n := if kw == Self then IdExpr(t) else Error([t], []);
        }
      case SepOpenParen => n := NextExprParen();
      case _ =>
        var t := ConsumeToken();
        n := Error([t], []);
    }

    /** A constant declaration when `=` follows the identifier. */
    method NextExprId() returns (n: Node)
      requires Valid() && Remaining() != []
      modifies this
      ensures Parsed(n, old(ParseId(Remaining(), exprRecursionDepth)))
      decreases |Remaining()|, 6
    {
      var id := ConsumeToken();
      var next := PeekToken(0);
      if next.kind == OpEq {
        var eq := ConsumeToken();
        var init := NextExpr(ASSIGNMENT_PRECEDENCE, TOP);
        return ConstDecl(id, eq, init);
      }
      n := if id.kind == Identifier then IdExpr(id) else Error([id], []);
    }

    method NextExprField(lhs: Node) returns (n: Node)
      requires Valid() && Peek(Remaining()) == OpDot
      modifies this
      ensures Parsed(n, old(ParseInfix(lhs, Remaining(), exprRecursionDepth)))
    {
      var dot := ConsumeToken();
      var id := ConsumeToken();
      n := if id.kind == Identifier then Field(lhs, dot, id) else Error([dot, id], [lhs]);
    }

    method NextExprIs(lhs: Node) returns (n: Node)
      requires Valid() && Remaining() != []
      modifies this
      ensures Parsed(n, old(ParseTypeTest(lhs, Remaining())))
    {
      var kw := ConsumeToken();
      var typ := ConsumeToken();
      if kw.kind == Keyword(As) {
        var id := ConsumeToken();
        n := if ValidType(typ) && IsIdToken(id) then TypeTest(lhs, kw, typ, [id]) else Error([kw, typ, id], [lhs]);
      } else {
        n := if ValidType(typ) then TypeTest(lhs, kw, typ, []) else Error([kw, typ], [lhs]);
      }
    }

    method NextExprCall(lhs: Node, modifiers: seq<Token>) returns (n: Node)
      requires Valid()
      modifies this
      ensures Parsed(n, old(ParseCall(modifiers, lhs, Remaining(), exprRecursionDepth)))
      decreases |Remaining()|, 5
    {
      hide BeforeEnd, NoEnd, ParseExpr, Next, IsOperator, LhsPrecedence;
      ghost var start := Remaining();
      var open := ConsumeToken();
      if open.kind == OpParenParen { return Call(modifiers, lhs, open, [], [], open); }
      var args, commas, missingComma := NextArgs(SepCloseParen, start);
      var close := ConsumeToken();
      var commasValid := !missingComma && |commas| == (if args == [] then 0 else |args| - 1);
      n := if ValidParentheses(open, close) && commasValid then Call(modifiers, lhs, open, args, commas, close)
      else Error(modifiers + [open] + commas + [close], [lhs] + args);
    }

    method NextExprIndex(lhs: Node) returns (n: Node)
      requires Valid() && Remaining() != []
      modifies this
      ensures Parsed(n, old(ParseIndex(lhs, Remaining(), exprRecursionDepth)))
      decreases |Remaining()|, 5
    {
      hide ParseExpr, NoEnd, Peek, Next, BeforeEnd;
      ghost var start := Remaining();
      var open := ConsumeToken();
      var args, commas, missingComma := NextArgs(SepCloseSquare, start);
      var close := ConsumeToken();
      var valid := close.kind == SepCloseSquare && args != [] && !missingComma && |commas| == |args| - 1;
      n := if valid then Index(lhs, open, args, commas, close) else Error([open] + commas + [close], [lhs] + args);
    }

    /** Arguments up to the closing token or the end of the input. */
    method NextArgs(closing: Kind, ghost start: seq<Token>)
      returns (args: seq<Node>, commas: seq<Token>, missingComma: bool)
      requires Valid() && (Remaining() != [] ==> |Remaining()| < |start|)
      modifies this
      ensures Valid() && exprRecursionDepth == old(exprRecursionDepth)
      ensures if old(Remaining()) == [] then Args(args, commas, missingComma, Remaining()) == Args([], [], false, [])
              else Args(args, commas, missingComma, Remaining()) == old(ParseArgs(Remaining(), exprRecursionDepth, closing))
      decreases |start|, 4
    {
      args, commas, missingComma := [], [], false;
      ghost var depth, ts := exprRecursionDepth, Remaining();
      ghost var all := if ts == [] then Args([], [], false, []) else ParseArgs(ts, depth, closing);
      NoArgs(all);
      var next := PeekToken(0);
      while next.kind != closing && next.kind != End
        invariant Valid() && exprRecursionDepth == depth && next == Next(Remaining())
        invariant |Remaining()| <= |ts|
        invariant all == Joined(args, commas, missingComma, ArgsOf(Remaining(), depth, closing))
        decreases |Remaining()|
      {
        args, commas, missingComma, next := NextArg(args, commas, missingComma, closing);
      }
      assert args + [] == args && commas + [] == commas;
    }

    /** One argument, and the comma behind it. */
    method NextArg(args0: seq<Node>, commas0: seq<Token>, missing0: bool, closing: Kind)
      returns (args: seq<Node>, commas: seq<Token>, missingComma: bool, next: Token)
      requires Valid() && Remaining() != [] && Peek(Remaining()) != closing
      modifies this
      ensures Valid() && exprRecursionDepth == old(exprRecursionDepth) && next == Next(Remaining())
      ensures |Remaining()| < |old(Remaining())|
      ensures Joined(args, commas, missingComma, ArgsOf(Remaining(), exprRecursionDepth, closing))
           == Joined(args0, commas0, missing0, old(ArgsOf(Remaining(), exprRecursionDepth, closing)))
      decreases |Remaining()|, 10
    {
      hide NoEnd, ParseArgs, ParseExpr;
      ghost var ts, depth := Remaining(), exprRecursionDepth;
      var arg := NextExpr(0, TOP);
      ghost var rest := Remaining();
      args, commas, missingComma := args0 + [arg], commas0, missing0;
      next := PeekToken(0);
      if next.kind == SepComma {
        var comma := ConsumeToken();
        commas := commas + [comma];
        next := PeekToken(0);
      } else if next.kind != closing {
        missingComma := true;
      }
      OneArg(args0, commas0, missing0, ts, depth, closing, arg, rest);
    }

    method NextExprConditional(condExpr: Node) returns (n: Node)
      requires Valid() && Remaining() != []
      modifies this
      ensures Parsed(n, old(ParseConditional(condExpr, Remaining(), exprRecursionDepth)))
      decreases |Remaining()|, 5
    {
      var qmark := ConsumeToken();
      var ifBranch := NextExpr(GROUPING_PRECEDENCE, TOP);
      var colon := ConsumeToken();
      var elseBranch := NextExpr(GROUPING_PRECEDENCE, TOP);
      n := if colon.kind == SepColon then Conditional(condExpr, qmark, ifBranch, colon, elseBranch)
      else Error([qmark, colon], [condExpr, ifBranch, elseBranch]);
    }

    method NextExprParen() returns (n: Node)
      requires Valid() && Peek(Remaining()) == SepOpenParen
      modifies this
      ensures Parsed(n, old(ParsePrimary(Remaining(), exprRecursionDepth)))
      decreases |Remaining()|, 6
    {
      hide ParseElse, BeforeEnd, ParseArgs;
      var open := ConsumeToken();
      var expr := NextExpr(0, TOP);
      var close := ConsumeToken();
      n := if close.kind == SepCloseParen then Paren(open, expr, close) else Error([open, close], [expr]);
    }

    method NextExprSwitch() returns (n: Node)
      requires Valid() && Peek(Remaining()) == Keyword(If)
      modifies this
      ensures Parsed(n, old(ParsePrimary(Remaining(), exprRecursionDepth)))
      decreases |Remaining()|, 6
    {
      hide BeforeEnd, NoEnd, ParseIf, ParseElse, ParseExpr;
      ghost var depth, ts := exprRecursionDepth, Remaining();
      ghost var all := ParseClauses(ts, depth);
      var clause := NextExprSwitchIf();
      var ifClauses := [clause];
      var next := PeekToken(0);
      while next.kind == Keyword(If)
        invariant Valid() && exprRecursionDepth == depth && next == Next(Remaining())
        invariant |Remaining()| < |ts|
        invariant if Peek(Remaining()) == Keyword(If)
                  then all == (ifClauses + ParseClauses(Remaining(), depth).0, ParseClauses(Remaining(), depth).1)
                  else all == (ifClauses, Remaining())
        decreases |Remaining()|
      {
        ghost var before := ParseClauses(Remaining(), depth);
        clause := NextExprSwitchIf();
        ghost var more := if Peek(Remaining()) == Keyword(If) then ParseClauses(Remaining(), depth).0 else [];
        assert [clause] + [] == [clause];
        assert before.0 == [clause] + more;
        assert ifClauses + ([clause] + more) == ifClauses + [clause] + more;
        ifClauses := ifClauses + [clause];
        assert ifClauses + [] == ifClauses;
        next := PeekToken(0);
      }
      if next.kind == Keyword(Else) {
        var elseClause := NextExprSwitchElse();
        return Switch(ifClauses, [elseClause]);
      }
      n := Switch(ifClauses, []);
    }

    method NextExprSwitchIf() returns (n: Node)
      requires Valid() && Remaining() != []
      modifies this
      ensures Parsed(n, old(ParseIf(Remaining(), exprRecursionDepth)))
      decreases |Remaining()|, 5
    {
      var kw := ConsumeToken();
      var cond := NextExpr(0, TOP);
      var arrow := ConsumeToken();
      var expr := NextExpr(0, TOP);
      n := if arrow.kind == SepArrow then SwitchIf(kw, cond, arrow, expr) else Error([kw, arrow], [cond, expr]);
    }

    method NextExprSwitchElse() returns (n: Node)
      requires Valid() && Remaining() != []
      modifies this
      ensures Parsed(n, old(ParseElse(Remaining(), exprRecursionDepth)))
      decreases |Remaining()|, 5
    {
      var kw := ConsumeToken();
      var arrow := ConsumeToken();
      var expr := NextExpr(0, TOP);
      n := if arrow.kind == SepArrow then SwitchElse(kw, arrow, expr) else Error([kw, arrow], [expr]);
    }
  }

  // ----- The buffer -----

  /** Reading one more token ahead. */
  lemma Buffered(before: seq<Token>, next: Token, rest: seq<Token>)
    requires next == Next(rest) && NoEnd(rest)
    requires (exists t :: t in before && t.kind == End) ==> rest == []
    ensures BeforeEnd(before + [next]) + Rest(rest) == BeforeEnd(before) + rest
  {
    if exists t :: t in before && t.kind == End {
      EndStays(before, next);
    } else {
      NoEndIsAll(before);
      if rest == [] {
        EndAppended(before);
      } else {
        assert rest[0] in rest;
        NoEndIsAll(before + [next]);
        assert before + [rest[0]] + rest[1..] == before + rest;
      }
    }
  }

  lemma EndStays(ts: seq<Token>, next: Token)
    requires exists t :: t in ts && t.kind == End
    ensures BeforeEnd(ts + [next]) == BeforeEnd(ts)
  {
    if ts[0].kind != End {
      assert (ts + [next])[1..] == ts[1..] + [next];
      var t :| t in ts && t.kind == End;
      assert t in ts[1..];
      EndStays(ts[1..], next);
    }
  }

  lemma EndAppended(ts: seq<Token>)
    requires NoEnd(ts)
    ensures BeforeEnd(ts + [END]) == ts
  {
    if ts != [] {
      assert ts[0] in ts;
      assert forall t | t in ts[1..] :: t in ts;
      assert (ts + [END])[1..] == ts[1..] + [END];
      EndAppended(ts[1..]);
    }
  }

  lemma NoEndIsAll(ts: seq<Token>)
    requires NoEnd(ts)
    ensures BeforeEnd(ts) == ts
  {
    if ts != [] {
      assert ts[0] in ts;
      assert forall t | t in ts[1..] :: t in ts;
      NoEndIsAll(ts[1..]);
    }
  }

  lemma InBuffer(buf: seq<Token>, rest: seq<Token>, i: nat)
    requires i < |buf|
    requires forall k | 0 <= k < |buf| && buf[k].kind == End :: rest == [] && forall j | k <= j < |buf| :: buf[j] == END
    ensures var ts := BeforeEnd(buf) + rest; buf[i] == if i < |ts| then ts[i] else END
    decreases i
  {
    if buf[0].kind != End && i > 0 { InBuffer(buf[1..], rest, i - 1); }
  }

  // ----- Argument lists -----

  ghost function ArgsOf(ts: seq<Token>, depth: nat, close: Kind): Args {
    ParseArgs(ts, depth, close)
  }

  /** Arguments read before others. */
  function Joined(args: seq<Node>, commas: seq<Token>, missing: bool, a: Args): Args {
    Args(args + a.args, commas + a.commas, missing || a.missingComma, a.rest)
  }

  lemma NoArgs(a: Args)
    ensures Joined([], [], false, a) == a
  {
    assert [] + a.args == a.args && [] + a.commas == a.commas;
  }

  /** The first argument is read and the others follow. */
  lemma OneArg(
    args: seq<Node>, commas: seq<Token>, missing: bool, ts: seq<Token>, depth: nat, close: Kind, arg: Node,
    rest: seq<Token>)
    requires ts != [] && Peek(ts) != close && (arg, rest) == ParseExpr(ts, depth, 0, TOP)
    ensures Joined(args, commas, missing, ArgsOf(ts, depth, close))
         == if Peek(rest) == SepComma
            then Joined(args + [arg], commas + [Next(rest)], missing, ArgsOf(Rest(rest), depth, close))
            else Joined(args + [arg], commas, missing || Peek(rest) != close, ArgsOf(rest, depth, close))
  {
    hide ParseExpr;
    if Peek(rest) == SepComma {
      ArgJoined(args, commas, missing, arg, [Next(rest)], false, ArgsOf(Rest(rest), depth, close), ArgsOf(ts, depth, close));
    } else {
      ArgJoined(args, commas, missing, arg, [], Peek(rest) != close, ArgsOf(rest, depth, close), ArgsOf(ts, depth, close));
      assert commas + [] == commas;
      assert [] + ArgsOf(rest, depth, close).commas == ArgsOf(rest, depth, close).commas;
    }
  }

  lemma ArgJoined(
    args: seq<Node>, commas: seq<Token>, missing: bool, arg: Node, comma: seq<Token>, missing1: bool, after: Args,
    before: Args)
    requires before == Args([arg] + after.args, comma + after.commas, missing1 || after.missingComma, after.rest)
    ensures Joined(args, commas, missing, before) == Joined(args + [arg], commas + comma, missing || missing1, after)
  {
    assert args + ([arg] + after.args) == args + [arg] + after.args;
    assert commas + (comma + after.commas) == commas + comma + after.commas;
  }
}
