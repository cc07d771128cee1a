/** The disassembler, and what it makes of the assembler's output. */
module Disassembler {
  import opened Bytes
  import opened ByteCode
  import opened ByteAssembler

  /** An operand with the labels at the offset it holds, if it holds one. */
  datatype LineArg = LineArg(kind: Kind, val: int, names: set<Name>)

  datatype Line = Line(op: Byte, offset: nat, args: seq<LineArg>, names: set<Name>)

  function NamesAt(labels: map<Name, nat>, offset: int): set<Name> {
    set l | l in labels && labels[l] == offset
  }

  function LineArgOf(a: Arg, labels: map<Name, nat>): LineArg
    requires a.Num?
  {
    LineArg(a.kind, a.val, if a.kind == Ip then NamesAt(labels, a.val) else {})
  }

  function LineArgs(args: seq<Arg>, labels: map<Name, nat>): (r: seq<LineArg>)
    requires Plain(args)
    ensures |r| == |args| && forall i | 0 <= i < |r| :: r[i] == LineArgOf(args[i], labels)
  {
    seq(|args|, i requires 0 <= i < |args| => LineArgOf(args[i], labels))
  }

  /** The lines of instructions that start at offset `at`. */
  function LinesOf(xs: seq<Item>, at: nat, labels: map<Name, nat>): (r: seq<Line>)
    requires AllPlain(xs)
    ensures |r| == |xs|
  {
    if xs == [] then []
    else
      assert xs[0] in xs && forall x | x in xs[1..] :: x in xs;
      [Line(xs[0].op, at, LineArgs(xs[0].args, labels), NamesAt(labels, at))]
      + LinesOf(xs[1..], at + |Encode(xs[0])|, labels)
  }

  /** What is disassembled from position ip on. */
  ghost function Lines(bs: seq<Byte>, ip: nat, labels: map<Name, nat>): Result<seq<Line>>
    requires ip <= |bs|
  {
    match DecodeAll(bs[ip..])
    case Ok(xs) => DecodeExact(bs[ip..], xs); Ok(LinesOf(xs, ip, labels))
    case BadAssembly => BadAssembly
    case Truncated => Truncated
  }

  function Prepended<T>(first: seq<T>, r: Result<seq<T>>): Result<seq<T>> {
    match r
    case Ok(rest) => Ok(first + rest)
    case other => other
  }

  /** One operand, advancing the instruction pointer. */
  method ReadAsm(bs: seq<Byte>, ip0: nat, k: Kind) returns (val: int, ip: nat)
    requires ip0 + Width(k) <= |bs|
    ensures ip == ip0 + Width(k) && Num(k, val) == ReadArg(k, bs[ip0..ip])
  {
    ip := ip0 + Width(k);
    var raw: nat, i: nat := 0, ip;
    assert bs[ip..ip] == [];
    while i > ip0
      invariant ip0 <= i <= ip && raw == Value(bs[i..ip])
    {
      i := i - 1;
      assert bs[i..ip][0] == bs[i] && bs[i..ip][1..] == bs[i + 1..ip];
      raw := bs[i] + 256 * raw;
    }
    val := if Signed(k) then AsSigned(raw, Pow256(Width(k))) else raw;
  }

  /** The operands of one instruction. */
  method ReadOperands(bs: seq<Byte>, ip0: nat, ks: seq<Kind>, labels: map<Name, nat>)
    returns (ok: bool, args: seq<LineArg>, ip: nat)
    requires ip0 <= |bs|
    ensures ok <==> ReadArgs(ks, bs[ip0..]).Ok?
    ensures ok ==> ip0 <= ip <= |bs| && bs[ip..] == ReadArgs(ks, bs[ip0..]).val.1
    ensures ok ==> Plain(ReadArgs(ks, bs[ip0..]).val.0) && args == LineArgs(ReadArgs(ks, bs[ip0..]).val.0, labels)
  {
    hide Width, ReadArg;
    args, ip := [], ip0;
    ghost var read: seq<Arg> := [];
    assert ks[0..] == ks;
    AfterNothing(ReadArgs(ks, bs[ip0..]));
    for i := 0 to |ks|
      invariant ip0 <= ip <= |bs| && Plain(read) && args == LineArgs(read, labels)
      invariant ReadArgs(ks, bs[ip0..]) == After(read, ReadArgs(ks[i..], bs[ip..]))
    {
      var k := ks[i];
      assert ks[i..][0] == k && ks[i..][1..] == ks[i + 1..];
      if |bs| - ip < Width(k) { return false, [], ip; }
      ghost var from := bs[ip..];
      var val, next := ReadAsm(bs, ip, k);
      assert from[..Width(k)] == bs[ip..next] && from[Width(k)..] == bs[next..];
      AfterOne(read, Num(k, val), ReadArgs(ks[i + 1..], bs[next..]));
      read := read + [Num(k, val)];
      args := args + [LineArgOf(Num(k, val), labels)];
      ip := next;
    }
    assert read + [] == read;
    ok := true;
  }

  function After(read: seq<Arg>, r: Result<(seq<Arg>, seq<Byte>)>): Result<(seq<Arg>, seq<Byte>)> {
    match r
    case Ok(p) => Ok((read + p.0, p.1))
    case other => other
  }

  lemma AfterNothing(r: Result<(seq<Arg>, seq<Byte>)>)
    ensures After([], r) == r
  {
    if r.Ok? { assert [] + r.val.0 == r.val.0; }
  }

  lemma AfterOne(read: seq<Arg>, a: Arg, r: Result<(seq<Arg>, seq<Byte>)>)
    ensures r.Ok? ==> After(read, Ok(([a] + r.val.0, r.val.1))) == After(read + [a], r)
  {
    if r.Ok? { assert read + ([a] + r.val.0) == read + [a] + r.val.0; }
  }

  method DisassembleInstructions(bs: seq<Byte>, labels: map<Name, nat>) returns (r: Result<seq<Line>>)
    ensures r == Lines(bs, 0, labels)
  {
    var result: seq<Line>, ip := [], 0;
    PrependedNothing(Lines(bs, 0, labels));
    while ip < |bs|
      invariant ip <= |bs|
      invariant Lines(bs, 0, labels) == Prepended(result, Lines(bs, ip, labels))
    {
      var line, next := DisassembleOne(bs, ip, labels);
      if line.BadAssembly? { return BadAssembly; }
      if line.Truncated? { return Truncated; }
      PrependedTwice(result, [line.val], Lines(bs, next, labels));
      result := result + [line.val];
      ip := next;
    }
    NoLines(bs, labels);
    assert result + [] == result;
    r := Ok(result);
  }

  lemma NoLines(bs: seq<Byte>, labels: map<Name, nat>)
    ensures Lines(bs, |bs|, labels) == Ok([])
  {
    assert bs[|bs|..] == [];
  }

  /** The line at ip and the position after it. */
  method DisassembleOne(bs: seq<Byte>, ip: nat, labels: map<Name, nat>) returns (line: Result<Line>, next: nat)
    requires ip < |bs|
    ensures line.Ok? ==> ip < next <= |bs| && Lines(bs, ip, labels) == Prepended([line.val], Lines(bs, next, labels))
    ensures line.BadAssembly? ==> Lines(bs, ip, labels) == BadAssembly
    ensures line.Truncated? ==> Lines(bs, ip, labels) == Truncated
  {
    hide Operands, ReadArgs, Lines, LineArgs;
    LinesStep(bs, ip, labels);
    var op := bs[ip];
    if Operands(op).None? { return BadAssembly, ip; }
    var ok, args, after := ReadOperands(bs, ip + 1, Operands(op).value, labels);
    if !ok { return Truncated, ip; }
    assert |bs[after..]| == |bs| - after;
    return Ok(Line(op, ip, args, NamesAt(labels, ip))), after;
  }

  lemma PrependedNothing(r: Result<seq<Line>>)
    ensures Prepended([], r) == r
  {
    if r.Ok? { assert [] + r.val == r.val; }
  }

  lemma PrependedTwice(a: seq<Line>, b: seq<Line>, r: Result<seq<Line>>)
    ensures Prepended(a, Prepended(b, r)) == Prepended(a + b, r)
  {
    if r.Ok? { assert a + (b + r.val) == a + b + r.val; }
  }

  /** One instruction from position ip on. */
  lemma LinesStep(bs: seq<Byte>, ip: nat, labels: map<Name, nat>)
    requires ip < |bs|
    ensures var ks := Operands(bs[ip]);
            if ks.None? then Lines(bs, ip, labels) == BadAssembly
            else
              var r := ReadArgs(ks.value, bs[ip + 1..]);
              if !r.Ok? then Lines(bs, ip, labels) == Truncated
              else
                var next := |bs| - |r.val.1|;
                && ip < next <= |bs| && Plain(r.val.0) && bs[next..] == r.val.1
                && Lines(bs, ip, labels)
                   == Prepended([Line(bs[ip], ip, LineArgs(r.val.0, labels), NamesAt(labels, ip))], Lines(bs, next, labels))
  {
    hide Operands, ReadArgs, LinesOf, LineArgs;
    var here := bs[ip..];
    assert here[0] == bs[ip] && here[1..] == bs[ip + 1..];
    var ks := Operands(bs[ip]);
    if ks.None? {
      assert Decode(here) == BadAssembly;
    } else if !ReadArgs(ks.value, bs[ip + 1..]).Ok? {
      assert Decode(here) == Truncated;
    } else {
      var r := ReadArgs(ks.value, bs[ip + 1..]).val;
      assert Decode(here) == Ok((Item(bs[ip], r.0), r.1));
      LinesAfter(bs, ip, labels, Item(bs[ip], r.0), r.1);
    }
  }

  lemma LinesAfter(bs: seq<Byte>, ip: nat, labels: map<Name, nat>, x: Item, rest: seq<Byte>)
    requires ip < |bs| && Decode(bs[ip..]) == Ok((x, rest))
    ensures Plain(x.args)
    ensures var next := |bs| - |rest|;
            && ip < next <= |bs| && bs[next..] == rest
            && Lines(bs, ip, labels)
               == Prepended([Line(x.op, ip, LineArgs(x.args, labels), NamesAt(labels, ip))], Lines(bs, next, labels))
  {
    hide Decode, WellFormed, Encode;
    var here, next := bs[ip..], |bs| - |rest|;
    ItemExact(here, x, rest);
    assert |here| == |Encode(x)| + |rest| && next == ip + |Encode(x)|;
    assert bs == bs[..ip] + Encode(x) + rest by { assert bs == bs[..ip] + here; }
    assert bs[next..] == rest;
    assert |Encode(x)| > 0 by { EncodeNotEmpty(x); }
    if DecodeAll(rest).Ok? {
      var xs := DecodeAll(rest).val;
      assert DecodeAll(here) == Ok([x] + xs);
      DecodeExact(here, [x] + xs);
      DecodeExact(rest, xs);
      assert ([x] + xs)[1..] == xs;
    }
  }

  lemma EncodeNotEmpty(x: Item)
    ensures |Encode(x)| > 0
  {}

  // ----- What the assembler wrote -----

  lemma {:induction false} ResolvedArgsOk(labels: map<Name, nat>, args: seq<Arg>)
    requires Known(labels, args) && Small(labels) && ArgsOk(args)
    ensures ArgsOk(ResolveArgs(labels, args))
  {
    Powers();
    if args != [] {
      assert args[0] in args && forall a | a in args[1..] :: a in args;
      ResolvedArgsOk(labels, args[1..]);
    }
  }

  lemma {:induction false} ResolvedPlain(labels: map<Name, nat>, xs: seq<Item>)
    requires AllKnown(labels, xs) && Small(labels) && forall x | x in xs :: WellFormed(x)
    ensures AllPlain(ResolveAll(labels, xs)) && |EncodeAll(ResolveAll(labels, xs))| == |EncodeAll(xs)|
  {
    if xs != [] {
      assert xs[0] in xs && forall x | x in xs[1..] :: x in xs;
      ResolvedPlain(labels, xs[1..]);
      SameLength(labels, xs[0].args);
      ResolvedArgsOk(labels, xs[0].args);
    }
  }

  /** The i-th line is at the offset of the i-th instruction. */
  lemma {:induction false} LineAt(xs: seq<Item>, at: nat, labels: map<Name, nat>, i: nat)
    requires AllPlain(xs) && i < |xs|
    ensures xs[i] in xs
    ensures LinesOf(xs, at, labels)[i]
         == Line(xs[i].op, at + |EncodeAll(xs[..i])|, LineArgs(xs[i].args, labels), NamesAt(labels, at + |EncodeAll(xs[..i])|))
    decreases i
  {
    hide Encode, LineArgs, NamesAt;
    assert xs[0] in xs && forall x | x in xs[1..] :: x in xs;
    if i > 0 {
      assert xs[..i][0] == xs[0] && xs[..i][1..] == xs[1..][..i - 1];
      LineAt(xs[1..], at + |Encode(xs[0])|, labels, i - 1);
    } else {
      assert xs[..0] == [];
    }
  }

  lemma {:induction false} ResolvedArg(labels: map<Name, nat>, args: seq<Arg>, j: nat)
    requires Known(labels, args) && j < |args|
    ensures ResolveArgs(labels, args)[j] == if args[j].Ref? then Num(Ip, labels[args[j].name]) else args[j]
    decreases j
  {
    assert args[0] in args && forall a | a in args[1..] :: a in args;
    if j > 0 { ResolvedArg(labels, args[1..], j - 1); }
  }

  lemma {:induction false} ResolvedItem(labels: map<Name, nat>, xs: seq<Item>, i: nat)
    requires AllKnown(labels, xs) && i < |xs|
    ensures xs[i] in xs && ResolveAll(labels, xs)[i] == Resolve(labels, xs[i])
    ensures forall k | 0 <= k <= i :: |ResolveAll(labels, xs)[..k]| == k
    decreases i
  {
    assert xs[0] in xs && forall x | x in xs[1..] :: x in xs;
    if i > 0 { ResolvedItem(labels, xs[1..], i - 1); }
  }

  lemma {:induction false} SameOffsets(labels: map<Name, nat>, xs: seq<Item>, k: nat)
    requires AllKnown(labels, xs) && k <= |xs|
    ensures |EncodeAll(ResolveAll(labels, xs)[..k])| == |EncodeAll(xs[..k])|
    decreases k
  {
    hide EncodeArgs, Known;
    var ys := ResolveAll(labels, xs);
    if k == 0 {
      assert ys[..0] == [] && xs[..0] == [];
    } else {
      assert xs[0] in xs && forall x | x in xs[1..] :: x in xs;
      SameLength(labels, xs[0].args);
      SameOffsets(labels, xs[1..], k - 1);
      assert ys[..k][0] == ys[0] && ys[..k][1..] == ResolveAll(labels, xs[1..])[..k - 1];
      assert xs[..k][0] == xs[0] && xs[..k][1..] == xs[1..][..k - 1];
    }
  }

  /** The labels of an assembler: each was placed before one of the instructions or at the end. */
  ghost predicate Placed(xs: seq<Item>, labels: map<Name, nat>, places: map<Name, nat>) {
    labels.Keys == places.Keys && forall l | l in labels :: places[l] <= |xs| && labels[l] == OffsetOf(xs, places[l])
  }

  /** A number is kept; a label becomes the offset of its place. */
  ghost predicate ArgKept(
    a: Arg, b: LineArg, lines: seq<Line>, labels: map<Name, nat>, places: map<Name, nat>, end: nat)
  {
    match a
    case Num(k, v) => b.kind == k && b.val == v
    case Ref(name) =>
      && b.kind == Ip && name in places && name in b.names
      && b.val == (if places[name] < |lines| then lines[places[name]].offset else end)
  }

  /** The i-th line has the opcode of the i-th instruction, its offset, its operands and exactly the
      labels placed before it. */
  ghost predicate LineKept(
    xs: seq<Item>, i: nat, lines: seq<Line>, labels: map<Name, nat>, places: map<Name, nat>, end: nat)
    requires i < |xs| == |lines|
  {
    && lines[i].op == xs[i].op && lines[i].offset == |EncodeAll(xs[..i])|
    && (forall l :: l in lines[i].names <==> l in places && places[l] == i)
    && |lines[i].args| == |xs[i].args|
    && forall j | 0 <= j < |xs[i].args| :: ArgKept(xs[i].args[j], lines[i].args[j], lines, labels, places, end)
  }

  /** The main theorem: the code of a closed assembler disassembles to the instructions that were
      added, each at its offset; every operand that referred to a label is the offset of the
      instruction the label was placed before, or of the end. */
  lemma RoundTrip(xs: seq<Item>, labels: map<Name, nat>, places: map<Name, nat>)
    requires Placed(xs, labels, places) && AllKnown(labels, xs) && (forall x | x in xs :: WellFormed(x))
    requires |EncodeAll(xs)| < WRAP
    ensures var bs := EncodeAll(ResolveAll(labels, xs));
            && |bs| == |EncodeAll(xs)|
            && Lines(bs, 0, labels).Ok?
            && var lines := Lines(bs, 0, labels).val;
            && |lines| == |xs| && forall i | 0 <= i < |xs| :: LineKept(xs, i, lines, labels, places, |bs|)
  {
    var ys := ResolveAll(labels, xs);
    var bs := EncodeAll(ys);
    hide WellFormed, EncodeAll, ResolveAll, DecodeAll, LinesOf, LineKept, OffsetOf;
    assert Small(labels) by { OffsetsSmall(xs, labels, places); }
    ResolvedPlain(labels, xs);
    DecodeExact(bs, ys);
    assert bs[0..] == bs;
    var lines := LinesOf(ys, 0, labels);
    assert Lines(bs, 0, labels) == Ok(lines);
    forall i | 0 <= i < |xs| ensures lines[i].offset == |EncodeAll(xs[..i])| {
      LineAt(ys, 0, labels, i);
      SameOffsets(labels, xs, i);
    }
    forall i | 0 <= i < |xs| ensures LineKept(xs, i, lines, labels, places, |bs|) {
      LineIsKept(xs, labels, places, lines, i);
    }
  }

  lemma OffsetsSmall(xs: seq<Item>, labels: map<Name, nat>, places: map<Name, nat>)
    requires Placed(xs, labels, places)
    ensures Small(labels)
  {
    hide EncodeAll;
  }

  lemma LineIsKept(xs: seq<Item>, labels: map<Name, nat>, places: map<Name, nat>, lines: seq<Line>, i: nat)
    requires Placed(xs, labels, places) && AllKnown(labels, xs) && AllPlain(ResolveAll(labels, xs))
    requires |EncodeAll(xs)| < WRAP && i < |xs| && lines == LinesOf(ResolveAll(labels, xs), 0, labels)
    requires forall k | 0 <= k < |xs| :: lines[k].offset == |EncodeAll(xs[..k])|
    ensures LineKept(xs, i, lines, labels, places, |EncodeAll(xs)|)
  {
    hide EncodeArgs, Encode, AllPlain, KindOf, Plain, InRange;
    var ys := ResolveAll(labels, xs);
    hide WellFormed, EncodeAll, ResolveAll, LinesOf, OffsetOf;
    LineAt(ys, 0, labels, i);
    ResolvedItem(labels, xs, i);
    SameOffsets(labels, xs, i);
    SameOffset(xs, i);
    forall l ensures l in lines[i].names <==> l in places && places[l] == i {
      if l in labels { OffsetsDiffer(xs, i, places[l]); }
    }
    forall j | 0 <= j < |xs[i].args|
      ensures ArgKept(xs[i].args[j], lines[i].args[j], lines, labels, places, |EncodeAll(xs)|)
    {
      ResolvedArg(labels, xs[i].args, j);
      assert lines[i].args[j] == LineArgOf(ys[i].args[j], labels);
      assert xs[i].args[j] in xs[i].args;
      if xs[i].args[j].Ref? { SameOffset(xs, places[xs[i].args[j].name]); }
    }
  }

  lemma SameOffset(xs: seq<Item>, k: nat)
    requires k <= |xs| && |EncodeAll(xs)| < WRAP
    ensures OffsetOf(xs, k) == |EncodeAll(xs[..k])| <= |EncodeAll(xs)|
    ensures k == |xs| ==> OffsetOf(xs, k) == |EncodeAll(xs)|
  {
    EncodeCat(xs[..k], xs[k..]);
    assert xs[..k] + xs[k..] == xs;
  }

  /** Instructions are not empty, so different ones have different offsets. */
  lemma OffsetsDiffer(xs: seq<Item>, i: nat, k: nat)
    requires i <= |xs| && k <= |xs| && |EncodeAll(xs)| < WRAP
    ensures OffsetOf(xs, i) == OffsetOf(xs, k) ==> i == k
  {
    SameOffset(xs, i);
    SameOffset(xs, k);
    if i < k { Longer(xs, i, k); }
    if k < i { Longer(xs, k, i); }
  }

  lemma Longer(xs: seq<Item>, i: nat, k: nat)
    requires i < k <= |xs|
    ensures |EncodeAll(xs[..i])| < |EncodeAll(xs[..k])|
  {
    EncodeCat(xs[..i], xs[i..k]);
    assert xs[..k] == xs[..i] + xs[i..k];
    assert EncodeAll(xs[i..k]) != [];
  }
}
