/** What the operations on 32 bit integers compute, said with integers alone: the functions that the
    evaluator, the machine and the precomputing pass share answer exactly that. */
module Arithmetic {
  import opened Lang
  import opened Machine
  import opened Folding

  predicate Int32(i: int) {
    -0x8000_0000 <= i < 0x8000_0000
  }

  /** The same lowest 32 bits. */
  predicate Congruent(a: int, b: int) {
    (a - b) % 0x1_0000_0000 == 0
  }

  /** The 32 bits of a read as a number without sign. */
  function Bits(a: int): int {
    if a < 0 then a + 0x1_0000_0000 else a
  }

  /** Division with remainder m that rounds toward zero. */
  predicate Divides(a: int, b: int, q: int, m: int) {
    && a == b * q + m
    && (-b < m < b || b < m < -b)
    && (m == 0 || (m < 0 <==> a < 0))
  }

  /** The operands for which an operation has a result. */
  predicate Defined(op: BinOp, a: int, b: int) {
    match op
    case DivInt => b != 0 && !(a == -0x8000_0000 && b == -1)
    case RemInt => b != 0 && !(a == -0x8000_0000 && b == -1)
    case ShiftLeftInt => 0 <= b < 32
    case ShiftRightInt => 0 <= b < 32
    case _ => true
  }

  ghost predicate IsResult(op: BinOp, a: int, b: int, r: int)
    requires Defined(op, a, b)
  {
    match op
    case AddInt => Int32(r) && Congruent(r, a + b)
    case SubInt => Int32(r) && Congruent(r, a - b)
    case MulInt => Int32(r) && Congruent(r, a * b)
    case DivInt => exists m :: Divides(a, b, r, m)
    case RemInt => exists q :: Divides(a, b, q, r)
    case ShiftLeftInt => Int32(r) && Congruent(r, a * Pow2(b))
    case ShiftRightInt => Int32(r) && Bits(r) * Pow2(b) <= Bits(a) < (Bits(r) + 1) * Pow2(b)
    case CheckEqInt => r == if a == b then 1 else 0
    case CheckLeInt => r == if a < b then 1 else 0
    case CheckGtInt => r == if a > b then 1 else 0
  }

  /** An operation on 32 bit operands answers r exactly when r is its result. */
  lemma BinaryIsRight(op: BinOp, a: int, b: int, r: int)
    requires Int32(a) && Int32(b)
    ensures ApplyBin(op, a, b) == Some(r) <==> Defined(op, a, b) && IsResult(op, a, b, r)
  {
    hide ApplyBin, IsResult, Int32;
    match op
    case AddInt => SumIs(a, b, r);
    case SubInt => SumIs(a, b, r);
    case MulInt => SumIs(a, b, r);
    case DivInt => DivisionIs(op, a, b, r);
    case RemInt => DivisionIs(op, a, b, r);
    case ShiftLeftInt => ShiftIs(op, a, b, r);
    case ShiftRightInt => ShiftIs(op, a, b, r);
    case _ => CheckIs(op, a, b, r);
  }

  lemma SumIs(a: int, b: int, r: int)
    ensures ApplyBin(AddInt, a, b) == Some(r) <==> IsResult(AddInt, a, b, r)
    ensures ApplyBin(SubInt, a, b) == Some(r) <==> IsResult(SubInt, a, b, r)
    ensures ApplyBin(MulInt, a, b) == Some(r) <==> IsResult(MulInt, a, b, r)
  {
    hide Wrap, Congruent, Int32, Pow2, TruncDiv, TruncRem;
    WrapIs(a + b, r);
    WrapIs(a - b, r);
    WrapIs(a * b, r);
  }

  lemma DivisionIs(op: BinOp, a: int, b: int, r: int)
    requires op == DivInt || op == RemInt
    ensures ApplyBin(op, a, b) == Some(r) <==> Defined(op, a, b) && IsResult(op, a, b, r)
  {
    hide TruncDiv, TruncRem, Divides, Wrap, Pow2;
    if Defined(op, a, b) {
      QuotientIs(a, b, r);
      RemainderIs(a, b, r);
    }
  }

  lemma ShiftIs(op: BinOp, a: int, b: int, r: int)
    requires Int32(a) && Int32(b) && (op == ShiftLeftInt || op == ShiftRightInt)
    ensures ApplyBin(op, a, b) == Some(r) <==> Defined(op, a, b) && IsResult(op, a, b, r)
  {
    ShiftDefined(op, a, b);
    hide ApplyBin, Pow2, Congruent, Bits, Int32;
    if Defined(op, a, b) {
      ShiftLeftIs(a, b, r);
      ShiftRightIs(a, b, r);
    }
  }

  lemma ShiftDefined(op: BinOp, a: int, b: int)
    requires Int32(b) && (op == ShiftLeftInt || op == ShiftRightInt)
    ensures ApplyBin(op, a, b).Some? <==> 0 <= b < 32
  {
    hide Pow2, Wrap;
  }

  lemma CheckIs(op: BinOp, a: int, b: int, r: int)
    requires op == CheckEqInt || op == CheckLeInt || op == CheckGtInt
    ensures ApplyBin(op, a, b) == Some(r) <==> IsResult(op, a, b, r)
  {
    hide Wrap, Pow2, TruncDiv, TruncRem;
  }

  lemma UnaryIsRight(op: UnOp, a: int, r: int)
    requires Int32(a)
    ensures ApplyUn(op, a) == r <==>
            match op
            case NegateInt => Int32(r) && Congruent(r, -a)
            case CheckIntZero => r == if a == 0 then 1 else 0
  {
    WrapIs(-a, r);
  }

  /** A sum minus one operand is the other one, and a number plus its negation is 0. */
  lemma SumsCancel(a: int, b: int)
    requires Int32(a) && Int32(b)
    ensures ApplyBin(SubInt, a, b).Some? && ApplyBin(AddInt, ApplyBin(SubInt, a, b).value, b) == Some(a)
    ensures ApplyBin(AddInt, a, b).Some? && ApplyBin(SubInt, ApplyBin(AddInt, a, b).value, b) == Some(a)
    ensures ApplyBin(AddInt, a, ApplyUn(NegateInt, a)) == Some(0)
  {
    WrapBack(a - b, b, a);
    WrapBack(a + b, -b, a);
    WrapBack(-a, a, 0);
  }

  lemma WrapBack(x: int, y: int, r: int)
    requires x + y == r && Int32(r)
    ensures Wrap(Wrap(x) + y) == r
  {
    CongruentSum(Wrap(x), x, y);
    WrapIs(Wrap(x) + y, r);
  }

  lemma CongruentSum(x: int, y: int, z: int)
    requires (y - x) % 0x1_0000_0000 == 0
    ensures Congruent(y + z, x + z)
  {
    assert (y + z) - (x + z) == y - x;
  }

  lemma WrapIs(x: int, r: int)
    ensures Wrap(x) == r <==> Int32(r) && Congruent(r, x)
  {
    Multiples(x - Wrap(x));
    Multiples(r - x);
    Multiples(Wrap(x) - x);
  }

  lemma Multiples(z: int)
    ensures z == 0x1_0000_0000 * (z / 0x1_0000_0000) + z % 0x1_0000_0000
    ensures z % 0x1_0000_0000 == 0 ==> -z % 0x1_0000_0000 == 0
  {}

  // ----- Division -----

  lemma QuotientIs(a: int, b: int, r: int)
    requires b != 0
    ensures TruncDiv(a, b) == r <==> exists m :: Divides(a, b, r, m)
  {
    TruncDivides(a, b);
    if m :| Divides(a, b, r, m) { DividesOnce(a, b, r, m, TruncDiv(a, b), TruncRem(a, b)); }
  }

  lemma RemainderIs(a: int, b: int, r: int)
    requires b != 0
    ensures TruncRem(a, b) == r <==> exists q :: Divides(a, b, q, r)
  {
    TruncDivides(a, b);
    if q :| Divides(a, b, q, r) { DividesOnce(a, b, q, r, TruncDiv(a, b), TruncRem(a, b)); }
  }

  lemma TruncDivides(a: int, b: int)
    requires b != 0
    ensures Divides(a, b, TruncDiv(a, b), TruncRem(a, b))
  {
    hide Abs, TruncDiv, TruncRem, Divides;
    var x: int, y: int := TruncUnfold(a, b);
    DivMod(x, y);
    Signed(a, b, x, y, x / y, x % y);
  }

  lemma TruncUnfold(a: int, b: int) returns (x: int, y: int)
    requires b != 0
    ensures y > 0 && x == (if a < 0 then -a else a) && y == if b < 0 then -b else b
    ensures TruncDiv(a, b) == if (a < 0) == (b < 0) then x / y else -(x / y)
    ensures TruncRem(a, b) == a - b * TruncDiv(a, b)
  {
    x, y := Abs(a), Abs(b);
  }

  lemma DivMod(x: int, y: int)
    requires y > 0
    ensures x == y * (x / y) + x % y && 0 <= x % y < y
  {}

  lemma Signed(a: int, b: int, x: int, y: int, q: int, m: int)
    requires x == y * q + m && 0 <= m < y
    requires x == (if a < 0 then -a else a) && y == if b < 0 then -b else b
    ensures var t := if (a < 0) == (b < 0) then q else -q; Divides(a, b, t, a - b * t)
  {
    var t := if (a < 0) == (b < 0) then q else -q;
    assert b * t == if a < 0 then -(y * q) else y * q by { Negated(y, q); }
  }

  lemma Negated(y: int, q: int)
    ensures -y * q == -(y * q) && y * -q == -(y * q) && -y * -q == y * q
  {}

  /** Quotient and remainder are unique. */
  lemma DividesOnce(a: int, b: int, q: int, m: int, q2: int, m2: int)
    requires Divides(a, b, q, m) && Divides(a, b, q2, m2)
    ensures q == q2 && m == m2
  {
    var d := q - q2;
    assert b * d == m2 - m;
    if d > 0 { Far(b, d); }
    if d < 0 {
      Far(b, -d);
      Negated(b, d);
    }
  }

  lemma Far(b: int, d: int)
    requires d >= 1 && b != 0
    ensures b > 0 ==> b * d >= b
    ensures b < 0 ==> b * d <= b
  {}

  // ----- Shifts -----

  /** Powers of two are what their name says. */
  lemma PowersMultiply(m: nat, n: nat)
    ensures Pow2(m + n) == Pow2(m) * Pow2(n) && Pow2(0) == 1 && Pow2(1) == 2
  {
    assert Pow2(1) == 2 * Pow2(0);
    if m > 0 {
      PowersMultiply(m - 1, n);
      assert 2 * (Pow2(m - 1) * Pow2(n)) == (2 * Pow2(m - 1)) * Pow2(n);
    }
  }

  lemma ShiftLeftIs(a: int, b: nat, r: int)
    requires Int32(a) && b < 32
    ensures ApplyBin(ShiftLeftInt, a, b) == Some(r) <==> Int32(r) && Congruent(r, a * Pow2(b))
  {
    ShiftsUnfold(a, b);
    hide ApplyBin, Wrap, Pow2, Congruent, Int32;
    WrapIs(Bits(a) * Pow2(b), r);
    BitsTimes(a, Pow2(b), r);
  }

  lemma BitsTimes(a: int, d: int, r: int)
    ensures Congruent(r, Bits(a) * d) <==> Congruent(r, a * d)
  {
    if a < 0 {
      Distribute(a, d);
      SameClass(a * d, d, r);
    }
  }

  lemma Distribute(a: int, d: int)
    ensures (a + 0x1_0000_0000) * d == a * d + 0x1_0000_0000 * d
  {}

  lemma ShiftsUnfold(a: int, b: nat)
    requires Int32(a) && b < 32
    ensures ApplyBin(ShiftLeftInt, a, b) == Some(Wrap(Bits(a) * Pow2(b)))
    ensures ApplyBin(ShiftRightInt, a, b) == Some(Wrap(Bits(a) / Pow2(b)))
  {
    hide Wrap, Pow2;
    assert Unsigned(a) == Bits(a) && Unsigned(b) == b;
  }

  lemma SameClass(x: int, k: int, r: int)
    ensures Congruent(r, x + 0x1_0000_0000 * k) <==> Congruent(r, x)
  {
    Multiples(r - x);
    Multiples(r - (x + 0x1_0000_0000 * k));
  }

  lemma ShiftRightIs(a: int, b: nat, r: int)
    requires Int32(a) && b < 32
    ensures ApplyBin(ShiftRightInt, a, b) == Some(r)
       <==> Int32(r) && Bits(r) * Pow2(b) <= Bits(a) < (Bits(r) + 1) * Pow2(b)
  {
    hide ApplyBin, Wrap, Pow2, Congruent, Int32, Bits;
    ShiftsUnfold(a, b);
    ShiftedBits(a, b);
    var u, d, q := Bits(a), Pow2(b), Bits(a) / Pow2(b);
    FloorIs(u, d, Bits(r));
    WrapIs(q, r);
    SameBits(q, r);
  }

  lemma ShiftedBits(a: int, b: nat)
    requires Int32(a)
    ensures 0 <= Bits(a) / Pow2(b) < 0x1_0000_0000
  {
    hide Pow2;
    FloorIs(Bits(a), Pow2(b), Bits(a) / Pow2(b));
  }

  lemma SameBits(q: int, r: int)
    requires 0 <= q < 0x1_0000_0000
    ensures Int32(r) ==> (Congruent(r, q) <==> Bits(r) == q)
  {}

  lemma FloorIs(x: int, d: int, q: int)
    requires d >= 1
    ensures x / d == q <==> q * d <= x < (q + 1) * d
    ensures x >= 0 ==> 0 <= x / d <= x
  {
    var f := x / d;
    assert x == d * f + x % d && 0 <= x % d < d;
    assert f * d == d * f && (f + 1) * d == d * f + d && (q + 1) * d == q * d + d;
    if q > f {
      assert q * d >= (f + 1) * d by { Times(q, f + 1, d); }
    } else if q < f {
      assert f * d >= (q + 1) * d by { Times(f, q + 1, d); }
    }
    if x >= 0 {
      if f < 0 { Times(0, f + 1, d); }
      AtMost(x, d, f);
    }
  }

  lemma AtMost(x: int, d: int, f: int)
    requires x >= 0 && d >= 1 && f * d <= x
    ensures f <= x
  {}

  lemma Times(a: int, b: int, d: int)
    requires a >= b && d >= 0
    ensures a * d >= b * d
  {}

  // ----- Where the operations are used -----

  /** The evaluator applies an operation to its first and second operand. */
  lemma EvaluatorComputes(p: Program, sc: Scope, fuel: nat, f: FuncId, op: BinOp, a: int, b: int, r: int, env: Env, w: World)
    requires Int32(a) && Int32(b) && f < |p.funcs| && p.funcs[f] == FuncDecl(Binary(op), false)
    ensures Eval(p, sc, fuel, Expr.Call(f, [LitInt(a), LitInt(b)]), env, w) == Ok(VInt(r), env, w)
       <==> Defined(op, a, b) && IsResult(op, a, b, r)
  {
    var args, rest := [LitInt(a), LitInt(b)], [LitInt(b)];
    assert args[1..] == rest && rest[1..] == [];
    assert Eval(p, sc, fuel, rest[0], env, w) == Ok(VInt(b), env, w);
    assert Eval(p, sc, fuel, args[0], env, w) == Ok(VInt(a), env, w);
    assert EvalAll(p, sc, fuel, rest[1..], env, w) == Ok([], env, w);
    assert EvalAll(p, sc, fuel, rest, env, w) == Ok([VInt(b)] + [], env, w);
    assert EvalAll(p, sc, fuel, args, env, w) == Ok([VInt(a)] + ([VInt(b)] + []), env, w);
    assert [VInt(a)] + ([VInt(b)] + []) == [VInt(a), VInt(b)];
    BinaryIsRight(op, a, b, r);
    hide ApplyBin, IsResult;
  }

  /** The machine applies it to the two topmost words, the upper one last, and stops at a division by
      zero. */
  lemma MachineComputes(c: Code, ip: nat, st: seq<Word>, home: nat, w: World, op: BinOp, a: int, b: int, r: int)
    requires Int32(a) && Int32(b)
    ensures var t := Exec(c, Running(ip, st + [WInt(a), WInt(b)], home, w), Arith2(op));
            && (t == Running(ip + 1, st + [WInt(r)], home, w) <==> Defined(op, a, b) && IsResult(op, a, b, r))
            && (t == Failed(Failure(DividedByZero, w)) <==> b == 0 && (op == DivInt || op == RemInt))
  {
    BinaryIsRight(op, a, b, r);
    hide ApplyBin;
    var full := st + [WInt(a), WInt(b)];
    assert Drop(full, 2) == st;
    Answers(op, a, b);
    hide IsResult;
    if ApplyBin(op, a, b).Some? {
      var v := ApplyBin(op, a, b).value;
      assert (st + [WInt(v)])[|st|] == WInt(v) && (st + [WInt(r)])[|st|] == WInt(r);
    }
  }

  /** The precomputing pass replaces a call on two literals by the literal of its result; its right shift
      rounds the signed number down. */
  lemma PrecomputedComputes(p: Program, k: Known, f: FuncId, op: BinOp, a: int, b: int)
    requires Int32(a) && Int32(b) && f < |p.funcs| && p.funcs[f].kind == Binary(op)
    ensures var r := FoldedIntrinsic(p, k, f, [LitInt(a), LitInt(b)]);
            if !Defined(op, a, b) then r == Expr.Call(f, [LitInt(a), LitInt(b)])
            else
              match op
              case CheckEqInt => r == LitBool(a == b)
              case CheckLeInt => r == LitBool(a < b)
              case CheckGtInt => r == LitBool(a > b)
              case ShiftRightInt => r.LitInt? && r.i * Pow2(b) <= a < (r.i + 1) * Pow2(b)
              case _ => r.LitInt? && IsResult(op, a, b, r.i)
  {
    assert AllInts([LitInt(a), LitInt(b)]);
    if op.ShiftRightInt? {
      PrecomputedShift(a, b);
    } else {
      Answers(op, a, b);
    }
    hide ApplyBin, Pow2, Wrap, Divides, Congruent;
  }

  lemma PrecomputedShift(a: int, b: int)
    requires Int32(b)
    ensures PrecomputedBin(ShiftRightInt, a, b).Some? <==> 0 <= b < 32
    ensures 0 <= b < 32 ==> var r := PrecomputedBin(ShiftRightInt, a, b).value; r * Pow2(b) <= a < (r + 1) * Pow2(b)
  {
    if 0 <= b < 32 {
      assert Unsigned(b) == b;
      FloorIs(a, Pow2(b), a / Pow2(b));
    }
  }

  /** There is an answer exactly when there is a result. */
  lemma Answers(op: BinOp, a: int, b: int)
    requires Int32(a) && Int32(b)
    ensures ApplyBin(op, a, b).Some? <==> Defined(op, a, b)
    ensures Defined(op, a, b) ==> IsResult(op, a, b, ApplyBin(op, a, b).value)
  {
    if ApplyBin(op, a, b).Some? { BinaryIsRight(op, a, b, ApplyBin(op, a, b).value); }
    hide IsResult, Wrap, Pow2, TruncDiv, TruncRem;
  }

  lemma PrecomputedUnary(p: Program, k: Known, f: FuncId, op: UnOp, a: int)
    requires Int32(a) && f < |p.funcs| && p.funcs[f].kind == Unary(op)
    ensures var r := FoldedIntrinsic(p, k, f, [LitInt(a)]);
            match op
            case NegateInt => r.LitInt? && Int32(r.i) && Congruent(r.i, -a)
            case CheckIntZero => r == LitBool(a == 0)
  {
    UnaryIsRight(op, a, ApplyUn(op, a));
    assert AllInts([LitInt(a)]);
  }
}
