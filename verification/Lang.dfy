/** The program tree that the optimizer rewrites and the backend compiles, with its meaning.

    `Eval` is a fuel-indexed evaluator: fuel counts nested calls. It answers `Err` when the
    program fails, gets stuck on an ill-typed operation or runs out of fuel; module Failing tells
    the failures from the rest. */
module Lang {

  type TypeId = nat
  type FuncId = nat
  type ConstId = nat

  datatype Option<+T> = None | Some(value: T)

  // ----- 32 bit integers -----

  /** The two's complement reading of the lowest 32 bits of x. */
  function Wrap(x: int): (r: int)
    ensures -0x8000_0000 <= r < 0x8000_0000
    ensures (x - r) % 0x1_0000_0000 == 0
  {
    var u := x % 0x1_0000_0000;
    if u < 0x8000_0000 then u else u - 0x1_0000_0000
  }

  /** The same 32 bits read as an unsigned number. */
  function Unsigned(x: int): nat {
    x % 0x1_0000_0000
  }

  function Abs(x: int): nat {
    if x < 0 then -x else x
  }

  /** Division rounding toward zero. */
  function TruncDiv(a: int, b: int): int
    requires b != 0
  {
    if (a < 0) == (b < 0) then Abs(a) / Abs(b) else -(Abs(a) / Abs(b))
  }

  function TruncRem(a: int, b: int): int
    requires b != 0
  {
    a - b * TruncDiv(a, b)
  }

  function Pow2(n: nat): (r: nat)
    ensures r > 0
  {
    if n == 0 then 1 else 2 * Pow2(n - 1)
  }

  function Bool(b: bool): int {
    if b then 1 else 0
  }

  datatype BinOp =
    | AddInt | SubInt | MulInt | DivInt | RemInt | ShiftLeftInt | ShiftRightInt
    | CheckEqInt | CheckLeInt | CheckGtInt

  datatype UnOp = NegateInt | CheckIntZero

  /** Applies an integer instruction; `None` where the machine stops (division by zero) or where
      C++ leaves the operation undefined (INT_MIN / -1, a shift by 32 or more). */
  function ApplyBin(op: BinOp, a: int, b: int): Option<int> {
    match op
    case AddInt => Some(Wrap(a + b))
    case SubInt => Some(Wrap(a - b))
    case MulInt => Some(Wrap(a * b))
    case DivInt => if b == 0 || (a == -0x8000_0000 && b == -1) then None else Some(TruncDiv(a, b))
    case RemInt => if b == 0 || (a == -0x8000_0000 && b == -1) then None else Some(TruncRem(a, b))
    case ShiftLeftInt =>
      if Unsigned(b) < 32 then Some(Wrap(Unsigned(a) * Pow2(Unsigned(b)))) else None
    case ShiftRightInt =>
      if Unsigned(b) < 32 then Some(Wrap(Unsigned(a) / Pow2(Unsigned(b)))) else None
    case CheckEqInt => Some(Bool(a == b))
    case CheckLeInt => Some(Bool(a < b))
    case CheckGtInt => Some(Bool(a > b))
  }

  predicate DividesByZero(op: BinOp, b: int) {
    (op.DivInt? || op.RemInt?) && b == 0
  }

  function ApplyUn(op: UnOp, a: int): int {
    match op
    case NegateInt => Wrap(-a)
    case CheckIntZero => Bool(a == 0)
  }

  // ----- Declarations -----

  datatype TypeDef = Struct(fields: seq<TypeId>) | Union(members: seq<TypeId>) | Basic

  /** What a function does; a user function carries its body, its bound constants come last among
      its inputs. */
  datatype FuncKind =
    | User(consts: ConstTable, body: Expr)
    | NoOp
    | Binary(bop: BinOp)
    | Unary(uop: UnOp)
    | MakeStruct(stype: TypeId)
    | MakeUnion(utype: TypeId, member: TypeId)
    | Fail
    | Action(code: nat, arity: nat)

  datatype FuncDecl = FuncDecl(kind: FuncKind, isAction: bool)

  /** The constants of one scope in the backend's order: inputs, bound inputs, locals.
      `highest` is the highest identifier ever registered, plus one. */
  datatype ConstTable =
    ConstTable(inputs: seq<ConstId>, bound: seq<ConstId>, locals: seq<ConstId>, highest: nat)
  {
    function Inputs(): seq<ConstId> {
      inputs + bound
    }

    function All(): seq<ConstId> {
      inputs + bound + locals
    }

    predicate Has(id: ConstId) {
      id in All()
    }
  }

  datatype Expr =
    | LitBool(b: bool)
    | LitInt(i: int)
    | LitFunc(func: FuncId)
    | ConstRef(id: ConstId)
    | Assign(id: ConstId, init: Expr)
    | Group(exprs: seq<Expr>)
    | Switch(conds: seq<Expr>, branches: seq<Expr>)
    | Call(func: FuncId, args: seq<Expr>)
    | CallDyn(tgt: Expr, args: seq<Expr>, act: bool)
    | CallSelf(args: seq<Expr>)
    | Closure(func: FuncId, boundArgs: seq<Expr>)
    | Field(stype: TypeId, lhs: Expr, index: nat)
    | UnionCheck(utype: TypeId, lhs: Expr, target: TypeId)
    | UnionGet(utype: TypeId, lhs: Expr, target: TypeId, id: ConstId)
    | FailNode

  datatype ExecStmt = ExecStmt(consts: ConstTable, expr: Expr)

  datatype Program =
    Program(types: seq<TypeDef>, funcs: seq<FuncDecl>, execs: seq<ExecStmt>)
  {
    predicate IsUser(f: FuncId) {
      f < |funcs| && funcs[f].kind.User?
    }

    predicate IsStruct(t: TypeId) {
      t < |types| && types[t].Struct?
    }

    predicate IsUnion(t: TypeId) {
      t < |types| && types[t].Union?
    }
  }

  /** The function an expression is part of, or none inside an execute statement. */
  datatype Scope = Scope(func: Option<FuncId>, consts: ConstTable, isAction: bool)

  function FuncScope(p: Program, f: FuncId): Scope
    requires p.IsUser(f)
  {
    Scope(Some(f), p.funcs[f].kind.consts, p.funcs[f].isAction)
  }

  function ExecScope(x: ExecStmt): Scope {
    Scope(None, x.consts, true)
  }

  // ----- Values -----

  datatype Value =
    | VInt(i: int)
    | VStruct(stype: TypeId, fields: seq<Value>)
    | VUnion(utype: TypeId, member: TypeId, val: Value)
    | VFunc(func: FuncId, bound: seq<Value>)

  type Env = map<ConstId, Value>

  /** Platform actions: the ones done so far and the replies the platform has still to give. */
  datatype Event = Event(code: nat, args: seq<int>)
  datatype World = World(done: seq<Event>, replies: seq<int>)

  /** Why a program stops before its end, and what it has done by then. */
  datatype Cause = FailCalled | DividedByZero
  datatype Failure = Failure(cause: Cause, world: World)

  datatype Result<+T> = Ok(val: T, env: Env, world: World) | Err

  /** The position of the first occurrence of x, or the length of s when there is none. */
  function IndexOf<T(==)>(s: seq<T>, x: T): (r: nat)
    ensures r <= |s|
    ensures r < |s| <==> x in s
    ensures r < |s| ==> s[r] == x
    ensures forall i :: 0 <= i < r ==> s[i] != x
  {
    if s == [] then 0 else if s[0] == x then 0 else 1 + IndexOf(s[1..], x)
  }

  predicate HasType(p: Program, v: Value, t: TypeId)
    decreases v
  {
    t < |p.types| &&
    match p.types[t]
    case Struct(fields) => v.VStruct? && v.stype == t && |v.fields| == |fields|
    case Union(members) =>
      v.VUnion? && v.utype == t && v.member in members && HasType(p, v.val, v.member)
    case Basic => v.VInt? || v.VFunc?
  }

  /** The environment a function body starts in. */
  function BindInputs(ids: seq<ConstId>, vals: seq<Value>): Env
    requires |ids| == |vals|
  {
    map id | id in ids :: vals[IndexOf(ids, id)]
  }

  function Lookups(env: Env, ids: seq<ConstId>): Option<seq<Value>> {
    if forall i :: 0 <= i < |ids| ==> ids[i] in env
    then Some(seq(|ids|, i requires 0 <= i < |ids| => env[ids[i]]))
    else None
  }

  function Ints(vals: seq<Value>): Option<seq<int>> {
    if forall i :: 0 <= i < |vals| ==> vals[i].VInt?
    then Some(seq(|vals|, i requires 0 <= i < |vals| => vals[i].i))
    else None
  }

  /** The meaning of every function without a body. */
  function Intrinsic(p: Program, kind: FuncKind, vals: seq<Value>, w: World): Option<(Value, World)> {
    match kind
    case User(_, _) => None
    case NoOp => Some((if vals == [] then VInt(0) else vals[0], w))
    case Binary(op) =>
      if |vals| == 2 && vals[0].VInt? && vals[1].VInt? then
        match ApplyBin(op, vals[0].i, vals[1].i)
        case Some(r) => Some((VInt(r), w))
        case None => None
      else None
    case Unary(op) =>
      if |vals| == 1 && vals[0].VInt? then Some((VInt(ApplyUn(op, vals[0].i)), w)) else None
    case MakeStruct(s) =>
      if p.IsStruct(s) && |vals| == |p.types[s].fields| then Some((VStruct(s, vals), w)) else None
    case MakeUnion(u, t) =>
      if |vals| == 1 && p.IsUnion(u) && t in p.types[u].members && HasType(p, vals[0], t)
      then Some((VUnion(u, t, vals[0]), w)) else None
    case Fail => None
    case Action(code, arity) =>
      if |vals| == arity && Ints(vals).Some? && |w.replies| > 0 then
        Some((VInt(w.replies[0]), World(w.done + [Event(code, Ints(vals).value)], w.replies[1..])))
      else None
  }

  // ----- Evaluation -----

  function Eval(p: Program, sc: Scope, fuel: nat, e: Expr, env: Env, w: World): (r: Result<Value>)
    decreases fuel, 0, e
  {
    match e
    case LitBool(b) => Ok(VInt(Bool(b)), env, w)
    case LitInt(i) => Ok(VInt(i), env, w)
    case LitFunc(f) => if p.IsUser(f) then Ok(VFunc(f, []), env, w) else Err
    case ConstRef(id) => if id in env then Ok(env[id], env, w) else Err
    case Assign(id, init) =>
      (match Eval(p, sc, fuel, init, env, w)
       case Ok(v, env1, w1) => if sc.consts.Has(id) then Ok(v, env1[id := v], w1) else Err
       case Err => Err)
    case Group(es) =>
      (match EvalAll(p, sc, fuel, es, env, w)
       case Ok(vs, env1, w1) => if vs == [] then Err else Ok(vs[|vs| - 1], env1, w1)
       case Err => Err)
    case Switch(cs, bs) =>
      (match EvalConds(p, sc, fuel, cs, env, w)
       case Ok(k, env1, w1) =>
         if cs != [] && |bs| == |cs| + 1 then Eval(p, sc, fuel, bs[k], env1, w1) else Err
       case Err => Err)
    case Call(f, args) =>
      (match EvalAll(p, sc, fuel, args, env, w)
       case Ok(vs, env1, w1) =>
         if f >= |p.funcs| || (p.funcs[f].isAction && !sc.isAction) then Err
         else if p.IsUser(f) then
           if fuel == 0 then Err else Return(env1, Invoke(p, fuel - 1, f, vs, w1))
         else if p.funcs[f].kind.Action? && !p.funcs[f].isAction then Err
         else
           (match Intrinsic(p, p.funcs[f].kind, vs, w1)
            case Some((v, w2)) => Ok(v, env1, w2)
            case None => Err)
       case Err => Err)
    case CallDyn(tgt, args, act) =>
      (match EvalAll(p, sc, fuel, args, env, w)
       case Ok(vs, env1, w1) =>
         (match Eval(p, sc, fuel, tgt, env1, w1)
          case Ok(t, env2, w2) =>
            if t.VFunc? && p.IsUser(t.func) && fuel > 0
               && (p.funcs[t.func].isAction ==> act) && (act ==> sc.isAction)
            then Return(env2, Invoke(p, fuel - 1, t.func, vs + t.bound, w2))
            else Err
          case Err => Err)
       case Err => Err)
    case CallSelf(args) =>
      (match EvalAll(p, sc, fuel, args, env, w)
       case Ok(vs, env1, w1) =>
         if sc.func.Some? && p.IsUser(sc.func.value) && |vs| == |sc.consts.inputs| && fuel > 0
         then
           match Lookups(env1, sc.consts.bound)
           case Some(bs) => Return(env1, Invoke(p, fuel - 1, sc.func.value, vs + bs, w1))
           case None => Err
         else Err
       case Err => Err)
    case Closure(f, args) =>
      (match EvalAll(p, sc, fuel, args, env, w)
       case Ok(vs, env1, w1) =>
         if p.IsUser(f) && |vs| == |p.funcs[f].kind.consts.bound| then Ok(VFunc(f, vs), env1, w1)
         else Err
       case Err => Err)
    case Field(s, lhs, index) =>
      (match Eval(p, sc, fuel, lhs, env, w)
       case Ok(v, env1, w1) =>
         if HasType(p, v, s) && p.IsStruct(s) && index < |v.fields| then Ok(v.fields[index], env1, w1)
         else Err
       case Err => Err)
    case UnionCheck(u, lhs, t) =>
      (match Eval(p, sc, fuel, lhs, env, w)
       case Ok(v, env1, w1) =>
         if HasType(p, v, u) && p.IsUnion(u) && t in p.types[u].members
         then Ok(VInt(Bool(v.member == t)), env1, w1)
         else Err
       case Err => Err)
    case UnionGet(u, lhs, t, id) =>
      (match Eval(p, sc, fuel, lhs, env, w)
       case Ok(v, env1, w1) =>
         if HasType(p, v, u) && p.IsUnion(u) && t in p.types[u].members && sc.consts.Has(id)
         then Ok(VInt(Bool(v.member == t)), if v.member == t then env1[id := v.val] else env1 - {id}, w1)
         else Err
       case Err => Err)
    case FailNode => Err
  }

  /** Evaluates a list of expressions from left to right. */
  function EvalAll(p: Program, sc: Scope, fuel: nat, es: seq<Expr>, env: Env, w: World)
    : (r: Result<seq<Value>>)
    ensures r.Ok? ==> |r.val| == |es|
    decreases fuel, 0, es
  {
    if es == [] then Ok([], env, w)
    else
      match Eval(p, sc, fuel, es[0], env, w)
      case Ok(v, env1, w1) =>
        (match EvalAll(p, sc, fuel, es[1..], env1, w1)
         case Ok(vs, env2, w2) => Ok([v] + vs, env2, w2)
         case Err => Err)
      case Err => Err
  }

  /** The index of the first condition that holds, or the number of conditions when none does. */
  function EvalConds(p: Program, sc: Scope, fuel: nat, cs: seq<Expr>, env: Env, w: World)
    : (r: Result<nat>)
    ensures r.Ok? ==> r.val <= |cs|
    decreases fuel, 0, cs
  {
    if cs == [] then Ok(0, env, w)
    else
      match Eval(p, sc, fuel, cs[0], env, w)
      case Ok(c, env1, w1) =>
        if !c.VInt? then Err
        else if c.i != 0 then Ok(0, env1, w1)
        else
          (match EvalConds(p, sc, fuel, cs[1..], env1, w1)
           case Ok(k, env2, w2) => Ok(1 + k, env2, w2)
           case Err => Err)
      case Err => Err
  }

  /** Runs a user function; the environment of its answer is that of the finished body. */
  function Invoke(p: Program, fuel: nat, f: FuncId, vals: seq<Value>, w: World): Result<Value>
    requires p.IsUser(f)
    decreases fuel, 1
  {
    var kind := p.funcs[f].kind;
    if |vals| == |kind.consts.Inputs()| then
      Eval(p, FuncScope(p, f), fuel, kind.body, BindInputs(kind.consts.Inputs(), vals), w)
    else Err
  }

  /** Drops a callee's environment and goes on in the caller's. */
  function Return(env: Env, r: Result<Value>): Result<Value> {
    if r.Ok? then Ok(r.val, env, r.world) else Err
  }

  /** Runs the execute statements of a program in order. */
  function RunExecs(p: Program, fuel: nat, execs: seq<ExecStmt>, w: World): Option<World> {
    if execs == [] then Some(w)
    else
      match Eval(p, ExecScope(execs[0]), fuel, execs[0].expr, map[], w)
      case Ok(_, _, w1) => RunExecs(p, fuel, execs[1..], w1)
      case Err => None
  }
}
