/** Instructions as bytes: which operands follow an opcode, and the two directions between a list of
    instructions and the bytes of an executable. */
module ByteCode {
  import opened Bytes
  import Lang

  type Name = string

  /** What an operand is read as. */
  datatype Kind = U8 | U16 | U32 | I32 | I64 | F32 | Ip

  /** An operand; a reference to a label has no value before it is resolved. */
  datatype Arg = Num(kind: Kind, val: int) | Ref(name: Name)

  datatype Item = Item(op: Byte, args: seq<Arg>)

  /** The operands that follow an opcode; other bytes are bad assembly. */
  function Operands(op: Byte): Lang.Option<seq<Kind>> {
    if op == 10 || op == 180 || op == 183 then Lang.Some([I32])
    else if op == 182 then Lang.Some([I32, I32])
    else if op == 14 then Lang.Some([I64])
    else if op == 15 then Lang.Some([F32])
    else if op == 16 then Lang.Some([U32])
    else if op == 30 || op == 32 || op == 34 then Lang.Some([U16])
    else if op == 11 || op == 31 || op == 33 || op == 35 || op == 190 || op == 192 || op == 193
            || 234 <= op <= 237 then Lang.Some([U8])
    else if op == 20 || op == 220 || op == 221 then Lang.Some([Ip])
    else if 230 <= op <= 232 then Lang.Some([U8, Ip])
    else if op == 12 || op == 13 || 40 <= op <= 83 || 90 <= op <= 104 || 111 <= op <= 123 || op == 181
            || op == 191 || op == 238 || op == 240 || op == 241 || 243 <= op <= 245 || op == 255 then Lang.Some([])
    else Lang.None
  }

  function Width(k: Kind): (r: nat)
    ensures r > 0
  {
    match k
    case U8 => 1
    case U16 => 2
    case I64 => 8
    case _ => 4
  }

  predicate Signed(k: Kind) {
    k == I32 || k == I64
  }

  /** The values an operand can have; those of a float are its raw bits. */
  predicate InRange(k: Kind, v: int) {
    var size := Pow256(Width(k));
    if Signed(k) then 0 <= 2 * v + size && 2 * v < size else 0 <= v < size
  }

  function KindOf(a: Arg): Kind {
    if a.Ref? then Ip else a.kind
  }

  function Kinds(args: seq<Arg>): seq<Kind> {
    if args == [] then [] else [KindOf(args[0])] + Kinds(args[1..])
  }

  predicate ArgsOk(args: seq<Arg>) {
    args == [] || ((args[0].Num? ==> InRange(args[0].kind, args[0].val)) && ArgsOk(args[1..]))
  }

  predicate WellFormed(x: Item) {
    Operands(x.op) == Lang.Some(Kinds(x.args)) && ArgsOk(x.args)
  }

  // ----- Encoding -----

  const HOLE: seq<Byte> := [255, 255, 255, 255]

  function EncodeArg(a: Arg): (r: seq<Byte>)
    ensures |r| == Width(KindOf(a))
  {
    match a
    case Ref(_) => HOLE
    case Num(k, v) => Le(v % Pow256(Width(k)), Width(k))
  }

  function EncodeArgs(args: seq<Arg>): seq<Byte> {
    if args == [] then [] else EncodeArg(args[0]) + EncodeArgs(args[1..])
  }

  function Encode(x: Item): seq<Byte> {
    [x.op] + EncodeArgs(x.args)
  }

  function EncodeAll(xs: seq<Item>): seq<Byte> {
    if xs == [] then [] else Encode(xs[0]) + EncodeAll(xs[1..])
  }

  lemma {:induction false} EncodeCat(xs: seq<Item>, ys: seq<Item>)
    ensures EncodeAll(xs + ys) == EncodeAll(xs) + EncodeAll(ys)
  {
    if xs == [] {
      assert xs + ys == ys;
    } else {
      assert (xs + ys)[1..] == xs[1..] + ys;
      EncodeCat(xs[1..], ys);
    }
  }

  // ----- Labels -----

  predicate Known(labels: map<Name, nat>, args: seq<Arg>) {
    forall a | a in args && a.Ref? :: a.name in labels
  }

  predicate AllKnown(labels: map<Name, nat>, xs: seq<Item>) {
    forall x | x in xs :: Known(labels, x.args)
  }

  function ResolveArgs(labels: map<Name, nat>, args: seq<Arg>): (r: seq<Arg>)
    requires Known(labels, args)
    ensures |r| == |args|
  {
    if args == [] then []
    else
      assert args[0] in args && forall a | a in args[1..] :: a in args;
      [if args[0].Ref? then Num(Ip, labels[args[0].name]) else args[0]] + ResolveArgs(labels, args[1..])
  }

  function Resolve(labels: map<Name, nat>, x: Item): Item
    requires Known(labels, x.args)
  {
    Item(x.op, ResolveArgs(labels, x.args))
  }

  function ResolveAll(labels: map<Name, nat>, xs: seq<Item>): (r: seq<Item>)
    requires AllKnown(labels, xs)
    ensures |r| == |xs|
  {
    if xs == [] then []
    else
      assert xs[0] in xs && forall x | x in xs[1..] :: x in xs;
      [Resolve(labels, xs[0])] + ResolveAll(labels, xs[1..])
  }

  // ----- Decoding -----

  datatype Result<+T> = Ok(val: T) | BadAssembly | Truncated

  function ReadArg(k: Kind, bs: seq<Byte>): Arg
    requires |bs| == Width(k)
  {
    Num(k, if Signed(k) then AsSigned(Value(bs), Pow256(Width(k))) else Value(bs))
  }

  /** The operands at the start of bs. */
  function ReadArgs(ks: seq<Kind>, bs: seq<Byte>): (r: Result<(seq<Arg>, seq<Byte>)>)
    ensures r.Ok? ==> |r.val.1| <= |bs|
    ensures !r.BadAssembly?
  {
    if ks == [] then Ok(([], bs))
    else if |bs| < Width(ks[0]) then Truncated
    else
      match ReadArgs(ks[1..], bs[Width(ks[0])..])
      case Ok(r) => Ok(([ReadArg(ks[0], bs[..Width(ks[0])])] + r.0, r.1))
      case _ => Truncated
  }

  /** The instruction at the start of bs and the bytes after it. */
  function Decode(bs: seq<Byte>): (r: Result<(Item, seq<Byte>)>)
    requires bs != []
    ensures r.Ok? ==> |r.val.1| < |bs|
  {
    if Operands(bs[0]).None? then BadAssembly
    else
      match ReadArgs(Operands(bs[0]).value, bs[1..])
      case Ok(r) => Ok((Item(bs[0], r.0), r.1))
      case _ => Truncated
  }

  function DecodeAll(bs: seq<Byte>): Result<seq<Item>>
    decreases |bs|
  {
    if bs == [] then Ok([])
    else
      match Decode(bs)
      case BadAssembly => BadAssembly
      case Truncated => Truncated
      case Ok(r) =>
        match DecodeAll(r.1)
        case Ok(xs) => Ok([r.0] + xs)
        case other => other
  }

  // ----- The two are inverse -----

  /** Nothing is left to resolve. */
  predicate Plain(args: seq<Arg>) {
    forall a | a in args :: a.Num?
  }

  predicate AllPlain(xs: seq<Item>) {
    forall x | x in xs :: WellFormed(x) && Plain(x.args)
  }

  lemma ArgExact(k: Kind, bs: seq<Byte>, v: int)
    requires |bs| == Width(k) && InRange(k, v)
    ensures ReadArg(k, bs) == Num(k, v) <==> bs == EncodeArg(Num(k, v))
    ensures InRange(k, ReadArg(k, bs).val)
  {
    hide Value, Le, Pow256, Width, InRange;
    LeOfValue(bs);
    ValueOfLe(v % Pow256(Width(k)), Width(k));
    ModExact(k, Value(bs), v);
    RangeOfRead(k, bs);
  }

  /** Reading a number as signed undoes taking it modulo the size. */
  lemma ModExact(k: Kind, n: nat, v: int)
    requires n < Pow256(Width(k)) && InRange(k, v)
    ensures 0 <= v % Pow256(Width(k)) < Pow256(Width(k))
    ensures (if Signed(k) then AsSigned(n, Pow256(Width(k))) else n) == v <==> n == v % Pow256(Width(k))
  {
    Powers();
    hide Pow256;
    match k
    case U8 =>
    case U16 =>
    case I64 =>
    case _ =>
  }

  lemma {:induction false} ArgsExact(ks: seq<Kind>, bs: seq<Byte>, args: seq<Arg>, rest: seq<Byte>)
    ensures ReadArgs(ks, bs) == Ok((args, rest))
       <==> Kinds(args) == ks && ArgsOk(args) && Plain(args) && bs == EncodeArgs(args) + rest
  {
    if ks == [] {
      assert EncodeArgs([]) + rest == rest;
    } else {
      if ReadArgs(ks, bs) == Ok((args, rest)) {
        var w := Width(ks[0]);
        ArgsRead(ks, bs, args, rest);
      }
      if Kinds(args) == ks && ArgsOk(args) && Plain(args) && bs == EncodeArgs(args) + rest {
        ArgsWritten(ks, bs, args, rest);
      }
    }
  }

  lemma {:induction false} ArgsRead(ks: seq<Kind>, bs: seq<Byte>, args: seq<Arg>, rest: seq<Byte>)
    requires ReadArgs(ks, bs) == Ok((args, rest))
    ensures Kinds(args) == ks && ArgsOk(args) && Plain(args) && bs == EncodeArgs(args) + rest
  {
    if ks != [] {
      hide ReadArg, InRange, EncodeArg;
      var w := Width(ks[0]);
      var a, more := ReadArg(ks[0], bs[..w]), ReadArgs(ks[1..], bs[w..]).val.0;
      assert args == [a] + more && args[1..] == more;
      ArgsRead(ks[1..], bs[w..], more, rest);
      ReadIsExact(ks[0], bs[..w]);
      assert bs == bs[..w] + bs[w..];
    }
  }

  lemma ReadIsExact(k: Kind, bs: seq<Byte>)
    requires |bs| == Width(k)
    ensures var a := ReadArg(k, bs); a.Num? && a.kind == k && InRange(k, a.val) && bs == EncodeArg(a)
  {
    RangeOfRead(k, bs);
    ArgExact(k, bs, ReadArg(k, bs).val);
  }

  lemma RangeOfRead(k: Kind, bs: seq<Byte>)
    requires |bs| == Width(k)
    ensures InRange(k, ReadArg(k, bs).val)
  {
    Powers();
    LeOfValue(bs);
  }

  lemma {:induction false} ArgsWritten(ks: seq<Kind>, bs: seq<Byte>, args: seq<Arg>, rest: seq<Byte>)
    requires Kinds(args) == ks && ArgsOk(args) && Plain(args) && bs == EncodeArgs(args) + rest
    ensures ReadArgs(ks, bs) == Ok((args, rest))
  {
    if args == [] {
      assert bs == rest;
    } else {
      var a, w := args[0], Width(ks[0]);
      assert a in args && forall b | b in args[1..] :: b in args;
      assert ks[0] == KindOf(a) && ks[1..] == Kinds(args[1..]);
      assert bs == EncodeArg(a) + (EncodeArgs(args[1..]) + rest);
      assert bs[..w] == EncodeArg(a) && bs[w..] == EncodeArgs(args[1..]) + rest;
      ArgExact(a.kind, bs[..w], a.val);
      ArgsWritten(ks[1..], bs[w..], args[1..], rest);
      assert args == [a] + args[1..];
    }
  }

  lemma ItemExact(bs: seq<Byte>, x: Item, rest: seq<Byte>)
    requires bs != []
    ensures Decode(bs) == Ok((x, rest)) <==> WellFormed(x) && Plain(x.args) && bs == Encode(x) + rest
  {
    var ks := Operands(bs[0]);
    if ks.Some? {
      ArgsExact(ks.value, bs[1..], x.args, rest);
      assert bs == [bs[0]] + bs[1..];
      assert (Encode(x) + rest)[1..] == EncodeArgs(x.args) + rest;
    } else if bs == Encode(x) + rest {
      assert bs[0] == x.op;
    }
  }

  /** Bytes disassemble to a list of instructions exactly when they are its encoding. */
  lemma {:induction false} DecodeExact(bs: seq<Byte>, xs: seq<Item>)
    ensures DecodeAll(bs) == Ok(xs) <==> AllPlain(xs) && bs == EncodeAll(xs)
    decreases |bs|
  {
    if bs == [] {
      if xs != [] { assert EncodeAll(xs) != []; }
    } else {
      if DecodeAll(bs) == Ok(xs) {
        var r := Decode(bs).val;
        assert xs == [r.0] + xs[1..] && DecodeAll(r.1) == Ok(xs[1..]);
        ItemExact(bs, r.0, r.1);
        DecodeExact(r.1, xs[1..]);
      }
      if AllPlain(xs) && bs == EncodeAll(xs) {
        assert xs[0] in xs && forall x | x in xs[1..] :: x in xs;
        ItemExact(bs, xs[0], EncodeAll(xs[1..]));
        DecodeExact(EncodeAll(xs[1..]), xs[1..]);
        assert xs == [xs[0]] + xs[1..];
      }
    }
  }
}
