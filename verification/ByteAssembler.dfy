/** The assembler as it writes bytes: references to labels are holes of four bytes that closing the
    assembler fills in. */
module ByteAssembler {
  import opened Bytes
  import opened ByteCode

  // ----- Holes -----

  /** A hole and the label whose offset belongs in it. */
  datatype Target = Target(name: Name, at: nat)

  function ArgTargets(args: seq<Arg>, at: nat): seq<Target> {
    if args == [] then [] else OwnTarget(args[0], at) + ArgTargets(args[1..], at + Width(KindOf(args[0])))
  }

  function OwnTarget(a: Arg, at: nat): seq<Target> {
    if a.Ref? then [Target(a.name, at % WRAP)] else []
  }

  function Targets(xs: seq<Item>, at: nat): seq<Target> {
    if xs == [] then [] else ArgTargets(xs[0].args, at + 1) + Targets(xs[1..], at + |Encode(xs[0])|)
  }

  /** The four bytes at `at` replaced by those of v. */
  function Fill(bs: seq<Byte>, at: nat, v: nat): (r: seq<Byte>)
    requires at + 4 <= |bs|
    ensures |r| == |bs|
  {
    bs[..at] + Le(v, 4) + bs[at + 4..]
  }

  predicate Fit(ts: seq<Target>, lo: nat, hi: nat) {
    forall t | t in ts :: lo <= t.at && t.at + 4 <= hi
  }

  predicate TargetsKnown(labels: map<Name, nat>, ts: seq<Target>) {
    forall t | t in ts :: t.name in labels
  }

  /** All holes filled, in order. */
  function FillAll(bs: seq<Byte>, ts: seq<Target>, labels: map<Name, nat>): (r: seq<Byte>)
    requires Fit(ts, 0, |bs|) && TargetsKnown(labels, ts)
    ensures |r| == |bs|
    decreases |ts|
  {
    if ts == [] then bs
    else
      assert ts[0] in ts && forall t | t in ts[1..] :: t in ts;
      FillAll(Fill(bs, ts[0].at, labels[ts[0].name]), ts[1..], labels)
  }

  // ----- The small forms -----

  function IntItem(v: int): Item {
    if v == 0 then Item(12, [])
    else if v == 1 then Item(13, [])
    else if 0 <= v <= 255 then Item(11, [Num(U8, v)])
    else Item(10, [Num(I32, v)])
  }

  /** The number an integer literal instruction loads. */
  function LoadedInt(x: Item): Lang.Option<int> {
    if x.op == 12 then Lang.Some(0)
    else if x.op == 13 then Lang.Some(1)
    else if (x.op == 10 || x.op == 11) && |x.args| == 1 && x.args[0].Num? then Lang.Some(x.args[0].val)
    else Lang.None
  }

  /** Instructions on stack slots have a wide form and, one opcode above it, a small one. */
  function SlotItem(op: Byte, n: nat): Item
    requires op < 255
  {
    if n <= 255 then Item(op + 1, [Num(U8, n)]) else Item(op, [Num(U16, n)])
  }

  /** No form that loads v is shorter than the one that is chosen. */
  lemma IntItemIsShortest(v: int, x: Item)
    requires InRange(I32, v)
    ensures WellFormed(IntItem(v)) && LoadedInt(IntItem(v)) == Lang.Some(v)
    ensures WellFormed(x) && LoadedInt(x) == Lang.Some(v) ==> |Encode(IntItem(v))| <= |Encode(x)|
  {
    Powers();
    if IntItem(v).args != [] { OneArg(IntItem(v)); }
    if WellFormed(x) && LoadedInt(x) == Lang.Some(v) {
      if x.args != [] { OneArg(x); }
    }
  }

  lemma OneArg(x: Item)
    requires |x.args| == 1
    ensures EncodeArgs(x.args) == EncodeArg(x.args[0]) && Kinds(x.args) == [KindOf(x.args[0])]
    ensures ArgsOk(x.args) == (x.args[0].Num? ==> InRange(x.args[0].kind, x.args[0].val))
  {
    assert x.args[1..] == [];
  }

  // ----- The assembler -----

  datatype CallMode = Normal | Tail | Forked

  datatype Executable =
    Executable(compilerVersion: string, entrypoint: nat, litStrings: seq<string>, instructions: seq<Byte>)

  /** Closing fails when a label that is referred to, or the entry point, was never declared. */
  datatype CloseResult = Closed(exe: Executable) | Undeclared(name: Name)

  class Assembler {
    const compilerVersion: string
    var entrypointLabel: Name
    var labels: map<Name, nat>
    var labelTargets: seq<Target>
    var litStrings: seq<string>
    var litStringLookup: map<string, nat>
    var instructions: seq<Byte>
    var closed: bool

    /** The instructions that were added, and before which of them each label was placed. */
    ghost var items: seq<Item>
    ghost var places: map<Name, nat>

    constructor (compilerVersion: string)
      ensures Valid() && !closed && items == [] && places == map[] && litStrings == [] && entrypointLabel == ""
      ensures this.compilerVersion == compilerVersion
    {
      this.compilerVersion := compilerVersion;
      entrypointLabel, labels, labelTargets, closed := "", map[], [], false;
      litStrings, litStringLookup, instructions, items, places := [], map[], [], [], map[];
    }

    ghost predicate Valid()
      reads this
    {
      && (!closed ==> instructions == EncodeAll(items))
      && labelTargets == Targets(items, 0) && (forall x | x in items :: WellFormed(x))
      && TablesOk()
    }

    /** Labels have the offsets of the instructions they were placed before; every string is in its
        table once. */
    ghost predicate TablesOk()
      reads this`labels, this`places, this`items, this`litStrings, this`litStringLookup
    {
      && labels.Keys == places.Keys
      && (forall l | l in labels :: places[l] <= |items| && labels[l] == OffsetOf(items, places[l]))
      && (forall s | s in litStringLookup :: litStringLookup[s] < |litStrings| && litStrings[litStringLookup[s]] == s)
      && (forall i | 0 <= i < |litStrings| :: litStrings[i] in litStringLookup && litStringLookup[litStrings[i]] == i)
    }

    /** The state after x has been added. */
    twostate predicate Added(x: Item)
      reads this
    {
      && Valid() && !closed && items == old(items) + [x] && places == old(places)
      && litStrings == old(litStrings) && entrypointLabel == old(entrypointLabel)
    }

    /** A label at the current position; false when there is one of the same name. */
    method Label(name: Name) returns (ok: bool)
      requires Valid() && !closed
      modifies this`labels, this`places
      ensures Valid() && ok == (name !in old(places))
      ensures places == if ok then old(places)[name := |items|] else old(places)
    {
      if name in labels { return false; }
      assert items[..|items|] == items;
      labels := labels[name := |instructions| % WRAP];
      places := places[name := |items|];
      ok := true;
    }

    method WriteUInt8(val: Byte)
      requires !closed
      modifies this`instructions
      ensures instructions == old(instructions) + [val]
    {
      instructions := instructions + [val];
    }

    method WriteUInt16(val: nat)
      requires !closed
      modifies this`instructions
      ensures instructions == old(instructions) + Le(val, 2)
    {
      instructions := instructions + [val % 256];
      instructions := instructions + [val / 0x100 % 256];
      FourBytes(val);
    }

    method WriteUInt32(val: nat)
      requires !closed
      modifies this`instructions
      ensures instructions == old(instructions) + Le(val, 4)
    {
      instructions := instructions + [val % 256];
      instructions := instructions + [val / 0x100 % 256];
      instructions := instructions + [val / 0x1_0000 % 256];
      instructions := instructions + [val / 0x100_0000 % 256];
      FourBytes(val);
    }

    /** Eight bytes; the source shifts the number once for each of them. */
    method WriteUInt64(val: nat)
      requires !closed
      modifies this`instructions
      ensures instructions == old(instructions) + Le(val, 8)
    {
      hide Le;
      var v := val;
      for i := 0 to 8
        invariant instructions + Le(v, 8 - i) == old(instructions) + Le(val, 8)
      {
        LeStep(instructions, v, 8 - i);
        instructions := instructions + [v % 256];
        v := v / 256;
      }
      assert Le(v, 0) == [] by { LeNothing(v); }
      assert instructions + [] == instructions;
    }

    /** A hole, and the note that the label's offset belongs there. */
    method WriteIpOffset(name: Name)
      requires !closed
      modifies this`instructions, this`labelTargets
      ensures instructions == old(instructions) + HOLE
      ensures labelTargets == old(labelTargets) + [Target(name, |old(instructions)| % WRAP)]
    {
      labelTargets := labelTargets + [Target(name, |instructions| % WRAP)];
      instructions := instructions + [255, 255, 255, 255];
    }

    // ----- Instructions -----

    /** An instruction without operands. */
    method AddPlain(op: Byte)
      requires Valid() && !closed && Operands(op) == Lang.Some([])
      modifies this
      ensures Added(Item(op, []))
    {
      hide Encode, EncodeAll, Targets, ArgTargets, Le, TablesOk, WellFormed;
      NoOperands(op);
      WriteUInt8(op);
      Grow(Item(op, []));
    }

    /** The bytes of x have been written and its holes noted. */
    ghost method Grow(x: Item)
      requires !closed && WellFormed(x) && instructions == EncodeAll(items) + Encode(x)
      requires labelTargets == Targets(items, 0) + ArgTargets(x.args, |EncodeAll(items)| + 1)
      requires TablesOk() && forall y | y in items :: WellFormed(y)
      modifies this`items
      ensures Valid() && items == old(items) + [x]
    {
      EncodeSnoc(items, x);
      TargetsSnoc(items, x, 0);
      forall l | l in labels ensures (items + [x])[..places[l]] == items[..places[l]] {}
      items := items + [x];
    }

    method AddLoadLitInt(val: int)
      requires Valid() && !closed && InRange(I32, val)
      modifies this
      ensures Added(IntItem(val))
    {
      hide Encode, EncodeAll, Targets, ArgTargets, Le, TablesOk, WellFormed;
      if val == 0 {
        NoOperands(12);
        WriteUInt8(12);
      } else if val == 1 {
        NoOperands(13);
        WriteUInt8(13);
      } else if 0 <= val <= 255 {
        OneByte(11, val);
        WriteUInt8(11);
        WriteUInt8(val);
      } else {
        Powers();
        OneNumber(10, I32, val);
        WriteUInt8(10);
        WriteUInt32(val % WRAP);
      }
      Grow(IntItem(val));
    }

    method AddLoadLitLong(val: int)
      requires Valid() && !closed && InRange(I64, val)
      modifies this
      ensures Added(Item(14, [Num(I64, val)]))
    {
      hide Encode, EncodeAll, Targets, ArgTargets, Le, TablesOk, WellFormed;
      Powers();
      OneNumber(14, I64, val);
      WriteUInt8(14);
      WriteUInt64(val % 0x1_0000_0000_0000_0000);
      Grow(Item(14, [Num(I64, val)]));
    }

    /** The raw bits of a float. */
    method AddLoadLitFloat(bits: nat)
      requires Valid() && !closed && bits < WRAP
      modifies this
      ensures Added(Item(15, [Num(F32, bits)]))
    {
      hide Encode, EncodeAll, Targets, ArgTargets, Le, TablesOk, WellFormed;
      Powers();
      OneNumber(15, F32, bits);
      WriteUInt8(15);
      WriteUInt32(bits);
      Grow(Item(15, [Num(F32, bits)]));
    }

    /** An instruction with one operand of four bytes. */
    method AddNumber(op: Byte, kind: Kind, val: int)
      requires Valid() && !closed && (kind == I32 || kind == U32) && Operands(op) == Lang.Some([kind]) && InRange(kind, val)
      modifies this
      ensures Added(Item(op, [Num(kind, val)]))
    {
      hide Encode, EncodeAll, Targets, ArgTargets, Le, TablesOk, WellFormed;
      Powers();
      OneNumber(op, kind, val);
      WriteUInt8(op);
      WriteUInt32(val % WRAP);
      Grow(Item(op, [Num(kind, val)]));
    }

    /** Equal strings share an entry of the table. */
    method AddLitString(val: string) returns (id: nat)
      requires Valid() && !closed
      modifies this`litStrings, this`litStringLookup
      ensures Valid() && old(litStrings) <= litStrings && id < |litStrings| && litStrings[id] == val
      ensures val in old(litStrings) ==> litStrings == old(litStrings)
      ensures val !in old(litStrings) ==> litStrings == old(litStrings) + [val]
    {
      if val in litStringLookup {
        return litStringLookup[val];
      }
      id := |litStrings|;
      litStrings := litStrings + [val];
      litStringLookup := litStringLookup[val := id];
    }

    method AddLoadLitString(val: string) returns (ghost id: nat)
      requires Valid() && !closed && |litStrings| < WRAP
      modifies this
      ensures Valid() && !closed && places == old(places) && entrypointLabel == old(entrypointLabel)
      ensures id < |litStrings| && litStrings[id] == val && items == old(items) + [Item(16, [Num(U32, id)])]
      ensures litStrings == if val in old(litStrings) then old(litStrings) else old(litStrings) + [val]
    {
      Powers();
      var litId := AddLitString(val);
      id := litId;
      AddNumber(16, U32, litId);
    }

    /** LoadLitIp, Jump and JumpIf: an instruction with a label as its operand. */
    method AddWithLabel(op: Byte, name: Name)
      requires Valid() && !closed && Operands(op) == Lang.Some([Ip])
      modifies this
      ensures Added(Item(op, [Ref(name)]))
    {
      hide Encode, EncodeAll, Targets, ArgTargets, Le, TablesOk, WellFormed;
      LabelOnly(op, name, |EncodeAll(items)| + 1);
      WriteUInt8(op);
      WriteIpOffset(name);
      Grow(Item(op, [Ref(name)]));
    }

    /** StackAlloc, StackStore and StackLoad. */
    method AddSlot(op: Byte, amount: nat)
      requires Valid() && !closed && (op == 30 || op == 32 || op == 34) && amount < 0x1_0000
      modifies this
      ensures Added(SlotItem(op, amount))
    {
      hide Encode, EncodeAll, Targets, ArgTargets, Le, TablesOk, WellFormed;
      if amount <= 255 {
        OneByte(op + 1, amount);
        WriteUInt8(op + 1);
        WriteUInt8(amount);
      } else {
        Powers();
        OneNumber(op, U16, amount);
        WriteUInt8(op);
        WriteUInt16(amount);
      }
      Grow(SlotItem(op, amount));
    }

    /** MakeAtomic and AtomicBlock. */
    method AddAtomic(op: Byte, val: int)
      requires Valid() && !closed && (op == 180 || op == 183) && InRange(I32, val)
      modifies this
      ensures Added(Item(op, [Num(I32, val)]))
    {
      AddNumber(op, I32, val);
    }

    method AddAtomicCompareSwap(expected: int, desired: int)
      requires Valid() && !closed && InRange(I32, expected) && InRange(I32, desired)
      modifies this
      ensures Added(Item(182, [Num(I32, expected), Num(I32, desired)]))
    {
      hide Encode, EncodeAll, Targets, ArgTargets, Le, TablesOk, WellFormed;
      TwoNumbers(182, expected, desired);
      WriteUInt8(182);
      WriteUInt32(expected % WRAP);
      WriteUInt32(desired % WRAP);
      Grow(Item(182, [Num(I32, expected), Num(I32, desired)]));
    }

    /** MakeStruct, StructLoadField, StructStoreField and PCall. */
    method AddWithByte(op: Byte, val: Byte)
      requires Valid() && !closed && Operands(op) == Lang.Some([U8])
      modifies this
      ensures Added(Item(op, [Num(U8, val)]))
    {
      hide Encode, EncodeAll, Targets, ArgTargets, Le, TablesOk, WellFormed;
      OneByte(op, val);
      WriteUInt8(op);
      WriteUInt8(val);
      Grow(Item(op, [Num(U8, val)]));
    }

    method AddCall(name: Name, argCount: Byte, mode: CallMode)
      requires Valid() && !closed
      modifies this
      ensures Added(Item(CallOp(mode), [Num(U8, argCount), Ref(name)]))
    {
      hide Encode, EncodeAll, Targets, ArgTargets, Le, TablesOk, WellFormed;
      ByteAndLabel(CallOp(mode), argCount, name, |EncodeAll(items)| + 1);
      WriteUInt8(CallOp(mode));
      WriteUInt8(argCount);
      WriteIpOffset(name);
      Grow(Item(CallOp(mode), [Num(U8, argCount), Ref(name)]));
    }

    method AddCallDyn(argCount: Byte, mode: CallMode)
      requires Valid() && !closed
      modifies this
      ensures Added(Item(CallOp(mode) + 4, [Num(U8, argCount)]))
    {
      AddWithByte(CallOp(mode) + 4, argCount);
    }

    method SetEntrypoint(name: Name)
      requires Valid()
      modifies this`entrypointLabel
      ensures Valid() && entrypointLabel == name
    {
      entrypointLabel := name;
    }

    // ----- Closing -----

    /** Fills the holes one after the other. */
    method PatchLabels() returns (missing: Lang.Option<Name>)
      requires Fit(labelTargets, 0, |instructions|)
      modifies this`instructions
      ensures missing.None? <==> TargetsKnown(labels, labelTargets)
      ensures missing.Some? ==> missing.value !in labels && exists t :: t in labelTargets && t.name == missing.value
      ensures missing.None? ==> instructions == FillAll(old(instructions), labelTargets, labels)
    {
      for i := 0 to |labelTargets|
        invariant |instructions| == |old(instructions)|
        invariant TargetsKnown(labels, labelTargets[..i])
        invariant TargetsKnown(labels, labelTargets) ==>
                    FillAll(old(instructions), labelTargets, labels) == FillAll(instructions, labelTargets[i..], labels)
      {
        var target := labelTargets[i];
        if target.name !in labels { return Lang.Some(target.name); }
        var ipOffset := labels[target.name];
        ghost var before := instructions;
        instructions := instructions[target.at := ipOffset % 256];
        instructions := instructions[target.at + 1 := ipOffset / 0x100 % 256];
        instructions := instructions[target.at + 2 := ipOffset / 0x1_0000 % 256];
        instructions := instructions[target.at + 3 := ipOffset / 0x100_0000 % 256];
        FourBytes(ipOffset);
        assert instructions == Fill(before, target.at, ipOffset);
        assert labelTargets[..i + 1] == labelTargets[..i] + [target];
        assert labelTargets[i..][0] == target && labelTargets[i..][1..] == labelTargets[i + 1..];
      }
      assert labelTargets[..|labelTargets|] == labelTargets;
      missing := Lang.None;
    }

    /** With less than 2^32 bytes the code of the executable is the encoding of the instructions that
        were added, with every reference replaced by the offset of the instruction its label is
        placed before. */
    method Close() returns (r: CloseResult)
      requires Valid() && !closed
      modifies this`closed, this`instructions
      ensures closed && Valid()
      ensures r.Closed? <==> AllKnown(labels, items) && entrypointLabel in labels
      ensures r.Undeclared? ==> r.name !in labels && (r.name == entrypointLabel || Mentions(items, r.name))
      ensures r.Closed? ==>
                && r.exe.compilerVersion == compilerVersion && r.exe.litStrings == litStrings
                && r.exe.entrypoint == labels[entrypointLabel] == OffsetOf(items, places[entrypointLabel])
                && (|old(instructions)| < WRAP ==> r.exe.instructions == EncodeAll(ResolveAll(labels, items)))
    {
      hide EncodeAll, Targets, FillAll, ResolveAll, Fit, TargetsKnown, WellFormed;
      closed := true;
      TargetsFit(items, 0);
      TargetsMention(items, 0, labels);
      var missing := PatchLabels();
      if missing.Some? {
        ghost var t :| t in labelTargets && t.name == missing.value;
        MentionsTarget(items, 0, t);
        return Undeclared(missing.value);
      }
      if entrypointLabel !in labels { return Undeclared(entrypointLabel); }
      if |instructions| < WRAP {
        AllFilled(items, labels);
      }
      r := Closed(Executable(compilerVersion, labels[entrypointLabel], litStrings, instructions));
    }
  }

  function CallOp(mode: CallMode): Byte {
    match mode
    case Normal => 230
    case Tail => 231
    case Forked => 232
  }

  /** Where the k-th instruction starts. */
  function OffsetOf(xs: seq<Item>, k: nat): nat
    requires k <= |xs|
  {
    |EncodeAll(xs[..k])| % WRAP
  }

  predicate Small(labels: map<Name, nat>) {
    forall l | l in labels :: labels[l] < WRAP
  }

  predicate Mentions(xs: seq<Item>, name: Name) {
    exists x :: x in xs && Ref(name) in x.args
  }

  lemma EncodeSnoc(xs: seq<Item>, x: Item)
    ensures EncodeAll(xs + [x]) == EncodeAll(xs) + Encode(x)
  {
    EncodeCat(xs, [x]);
    assert [x][1..] == [] && EncodeAll([x]) == Encode(x) + [];
  }

  lemma TwoArgs(x: Item)
    requires |x.args| == 2
    ensures EncodeArgs(x.args) == EncodeArg(x.args[0]) + EncodeArg(x.args[1])
    ensures Kinds(x.args) == [KindOf(x.args[0]), KindOf(x.args[1])]
    ensures ArgsOk(x.args) == forall i | 0 <= i < 2 && x.args[i].Num? :: InRange(x.args[i].kind, x.args[i].val)
  {
    OneArg(x.(args := x.args[1..]));
  }

  // ----- The bytes and holes of each form -----

  lemma NoOperands(op: Byte)
    requires Operands(op) == Lang.Some([])
    ensures var x := Item(op, []); WellFormed(x) && Encode(x) == [op] && forall at: nat :: ArgTargets(x.args, at) == []
  {}

  lemma OneByte(op: Byte, v: Byte)
    requires Operands(op) == Lang.Some([U8])
    ensures var x := Item(op, [Num(U8, v)]);
            WellFormed(x) && Encode(x) == [op, v] && forall at: nat :: ArgTargets(x.args, at) == []
  {
    Powers();
    OneArg(Item(op, [Num(U8, v)]));
    NoTargets([Num(U8, v)]);
    assert Le(v, 1) == [v % 256] + Le(v / 256, 0);
  }

  lemma OneNumber(op: Byte, k: Kind, v: int)
    requires Operands(op) == Lang.Some([k]) && InRange(k, v)
    ensures var x := Item(op, [Num(k, v)]);
            && WellFormed(x) && (forall at: nat :: ArgTargets(x.args, at) == [])
            && Encode(x) == [op] + Le(v % Pow256(Width(k)), Width(k))
  {
    hide Le, Pow256, InRange;
    OneArg(Item(op, [Num(k, v)]));
    NoTargets([Num(k, v)]);
  }

  lemma TwoNumbers(op: Byte, v: int, w: int)
    requires Operands(op) == Lang.Some([I32, I32]) && InRange(I32, v) && InRange(I32, w)
    ensures var x := Item(op, [Num(I32, v), Num(I32, w)]);
            && WellFormed(x) && (forall at: nat :: ArgTargets(x.args, at) == [])
            && Encode(x) == [op] + Le(v % WRAP, 4) + Le(w % WRAP, 4)
  {
    Powers();
    var x := Item(op, [Num(I32, v), Num(I32, w)]);
    TwoArgs(x);
    NoTargets(x.args);
    hide Le;
  }

  lemma LabelOnly(op: Byte, name: Name, at: nat)
    requires Operands(op) == Lang.Some([Ip])
    ensures var x := Item(op, [Ref(name)]);
            WellFormed(x) && Encode(x) == [op] + HOLE && ArgTargets(x.args, at) == [Target(name, at % WRAP)]
  {
    OneArg(Item(op, [Ref(name)]));
    assert [Ref(name)][1..] == [] && ArgTargets([Ref(name)], at) == [Target(name, at % WRAP)] + ArgTargets([], at + 4);
  }

  lemma ByteAndLabel(op: Byte, v: Byte, name: Name, at: nat)
    requires Operands(op) == Lang.Some([U8, Ip])
    ensures var x := Item(op, [Num(U8, v), Ref(name)]);
            WellFormed(x) && Encode(x) == [op, v] + HOLE && ArgTargets(x.args, at) == [Target(name, (at + 1) % WRAP)]
  {
    Powers();
    var args := [Num(U8, v), Ref(name)];
    TwoArgs(Item(op, args));
    assert Le(v, 1) == [v % 256] + Le(v / 256, 0);
    assert args[1..] == [Ref(name)] && args[1..][1..] == [];
    assert ArgTargets(args, at) == [] + ArgTargets([Ref(name)], at + 1);
    assert ArgTargets([Ref(name)], at + 1) == [Target(name, (at + 1) % WRAP)] + ArgTargets([], at + 5);
  }

  lemma {:induction false} NoTargets(args: seq<Arg>)
    requires Plain(args)
    ensures forall at: nat :: ArgTargets(args, at) == []
  {
    if args != [] {
      assert args[0] in args && forall a | a in args[1..] :: a in args;
      NoTargets(args[1..]);
    }
  }

  lemma {:induction false} TargetsSnoc(xs: seq<Item>, x: Item, at: nat)
    ensures Targets(xs + [x], at) == Targets(xs, at) + ArgTargets(x.args, at + |EncodeAll(xs)| + 1)
  {
    hide ArgTargets, Encode, OwnTarget;
    if xs == [] {
      assert [] + [x] == [x] && [x][1..] == [];
      assert Targets([x], at) == ArgTargets(x.args, at + 1) + [];
    } else {
      assert (xs + [x])[1..] == xs[1..] + [x];
      TargetsSnoc(xs[1..], x, at + |Encode(xs[0])|);
    }
  }

  lemma LeNothing(v: nat)
    ensures Le(v, 0) == []
  {}

  lemma LeStep(bs: seq<Byte>, v: nat, k: nat)
    requires k > 0
    ensures bs + Le(v, k) == bs + [v % 256] + Le(v / 256, k - 1)
  {
    assert Le(v, k) == [v % 256] + Le(v / 256, k - 1);
  }

  // ----- Patching -----

  /** Every hole lies inside the instructions. */
  lemma {:induction false} TargetsFit(xs: seq<Item>, at: nat)
    ensures Fit(Targets(xs, at), 0, at + |EncodeAll(xs)|)
  {
    hide OwnTarget, Pow256, KindOf;
    if xs != [] {
      hide ArgTargets, EncodeArgs, Fit;
      ArgsFit(xs[0].args, at + 1);
      TargetsFit(xs[1..], at + |Encode(xs[0])|);
      BothFit(ArgTargets(xs[0].args, at + 1), at + |Encode(xs[0])|, Targets(xs[1..], at + |Encode(xs[0])|), at + |EncodeAll(xs)|);
    }
  }

  lemma BothFit(a: seq<Target>, mid: nat, b: seq<Target>, hi: nat)
    requires Fit(a, 0, mid) && Fit(b, 0, hi) && mid <= hi
    ensures Fit(a + b, 0, hi)
  {}

  lemma {:induction false} ArgsFit(args: seq<Arg>, at: nat)
    ensures Fit(ArgTargets(args, at), 0, at + |EncodeArgs(args)|)
  {
    if args != [] {
      ArgsFit(args[1..], at + Width(KindOf(args[0])));
    }
  }

  lemma {:induction false} TargetsMention(xs: seq<Item>, at: nat, labels: map<Name, nat>)
    ensures TargetsKnown(labels, Targets(xs, at)) <==> AllKnown(labels, xs)
  {
    if xs != [] {
      ArgsMention(xs[0].args, at + 1, labels);
      TargetsMention(xs[1..], at + |Encode(xs[0])|, labels);
      KnownCat(labels, ArgTargets(xs[0].args, at + 1), Targets(xs[1..], at + |Encode(xs[0])|));
      assert forall x :: x in xs <==> x == xs[0] || x in xs[1..];
    }
  }

  lemma {:induction false} ArgsMention(args: seq<Arg>, at: nat, labels: map<Name, nat>)
    ensures TargetsKnown(labels, ArgTargets(args, at)) <==> Known(labels, args)
  {
    if args != [] {
      var a, next := args[0], at + Width(KindOf(args[0]));
      ArgsMention(args[1..], next, labels);
      KnownCat(labels, if a.Ref? then [Target(a.name, at % WRAP)] else [], ArgTargets(args[1..], next));
      assert forall x :: x in args <==> x == a || x in args[1..];
    }
  }

  lemma KnownCat(labels: map<Name, nat>, a: seq<Target>, b: seq<Target>)
    ensures TargetsKnown(labels, a + b) <==> TargetsKnown(labels, a) && TargetsKnown(labels, b)
  {
    assert forall t :: t in a + b <==> t in a || t in b;
  }

  lemma {:induction false} MentionsTarget(xs: seq<Item>, at: nat, t: Target)
    requires t in Targets(xs, at)
    ensures Mentions(xs, t.name)
  {
    if t in ArgTargets(xs[0].args, at + 1) {
      ArgsHaveTarget(xs[0].args, at + 1, t);
      assert xs[0] in xs;
    } else {
      MentionsTarget(xs[1..], at + |Encode(xs[0])|, t);
      var x :| x in xs[1..] && Ref(t.name) in x.args;
      assert x in xs;
    }
  }

  lemma {:induction false} ArgsHaveTarget(args: seq<Arg>, at: nat, t: Target)
    requires t in ArgTargets(args, at)
    ensures Ref(t.name) in args
  {
    if !(args[0].Ref? && t == Target(args[0].name, at % WRAP)) {
      ArgsHaveTarget(args[1..], at + Width(KindOf(args[0])), t);
    }
  }

  lemma {:induction false} FillCat(bs: seq<Byte>, a: seq<Target>, b: seq<Target>, labels: map<Name, nat>)
    requires Fit(a, 0, |bs|) && Fit(b, 0, |bs|) && TargetsKnown(labels, a) && TargetsKnown(labels, b)
    ensures Fit(a + b, 0, |bs|) && TargetsKnown(labels, a + b)
    ensures FillAll(bs, a + b, labels) == FillAll(FillAll(bs, a, labels), b, labels)
    decreases |a|
  {
    if a == [] {
      assert a + b == b;
    } else {
      assert a[0] in a && (forall t | t in a[1..] :: t in a) && (a + b)[1..] == a[1..] + b;
      FillCat(Fill(bs, a[0].at, labels[a[0].name]), a[1..], b, labels);
    }
  }

  lemma AllFilled(xs: seq<Item>, labels: map<Name, nat>)
    requires AllKnown(labels, xs) && Small(labels) && |EncodeAll(xs)| < WRAP
    requires Fit(Targets(xs, 0), 0, |EncodeAll(xs)|) && TargetsKnown(labels, Targets(xs, 0))
    ensures FillAll(EncodeAll(xs), Targets(xs, 0), labels) == EncodeAll(ResolveAll(labels, xs))
  {
    hide FillAll, Targets, EncodeAll, ResolveAll, Fit, TargetsKnown;
    HolesFilled(xs, [], [], labels);
    Bare(EncodeAll(xs));
    Bare(EncodeAll(ResolveAll(labels, xs)));
  }

  lemma Bare(bs: seq<Byte>)
    ensures [] + bs + [] == bs
  {}

  lemma Inside(ts: seq<Target>, hi: nat, hi': nat)
    requires Fit(ts, 0, hi) && hi <= hi'
    ensures Fit(ts, 0, hi')
  {}

  /** Filling the holes of xs, between other bytes, gives the encoding of xs with its references
      resolved; no other byte changes. */
  lemma {:induction false} HolesFilled(xs: seq<Item>, before: seq<Byte>, after: seq<Byte>, labels: map<Name, nat>)
    requires AllKnown(labels, xs) && Small(labels) && |before| + |EncodeAll(xs)| < WRAP
    ensures var ts, bs := Targets(xs, |before|), before + EncodeAll(xs) + after;
            && Fit(ts, 0, |bs|) && TargetsKnown(labels, ts)
            && FillAll(bs, ts, labels) == before + EncodeAll(ResolveAll(labels, xs)) + after
    decreases |xs|
  {
    var ts, bs := Targets(xs, |before|), before + EncodeAll(xs) + after;
    TargetsFit(xs, |before|);
    TargetsMention(xs, |before|, labels);
    Inside(ts, |before| + |EncodeAll(xs)|, |bs|);
    if xs != [] {
      hide Fit, TargetsKnown, FillAll, EncodeArgs, ResolveArgs, ArgTargets;
      var x, more := xs[0], xs[1..];
      assert x in xs && forall y | y in more :: y in xs;
      var first := before + Encode(Resolve(labels, x));
      FirstItemFilled(xs, before, after, labels);
      HolesFilled(more, first, after, labels);
      Assoc(before, Encode(Resolve(labels, x)), EncodeAll(ResolveAll(labels, more)), after);
    }
  }

  lemma Assoc(a: seq<Byte>, b: seq<Byte>, c: seq<Byte>, d: seq<Byte>)
    ensures a + (b + c) + d == a + b + c + d == a + b + (c + d)
  {}

  lemma FirstItemFilled(xs: seq<Item>, before: seq<Byte>, after: seq<Byte>, labels: map<Name, nat>)
    requires xs != [] && AllKnown(labels, xs) && Small(labels) && |before| + |EncodeAll(xs)| < WRAP
    requires var ts, bs := Targets(xs, |before|), before + EncodeAll(xs) + after;
             Fit(ts, 0, |bs|) && TargetsKnown(labels, ts)
    ensures xs[0] in xs
    ensures var x, more, bs := xs[0], xs[1..], before + EncodeAll(xs) + after;
            var first := before + Encode(Resolve(labels, x));
            && |first| == |before| + |Encode(x)| && |first| + |EncodeAll(more)| < WRAP
            && Fit(Targets(more, |first|), 0, |first + EncodeAll(more) + after|)
            && TargetsKnown(labels, Targets(more, |first|))
            && FillAll(bs, Targets(xs, |before|), labels)
               == FillAll(first + EncodeAll(more) + after, Targets(more, |first|), labels)
  {
    hide Fit, TargetsKnown, FillAll, Targets, ArgTargets, EncodeAll, EncodeArgs, ResolveArgs;
    var x, more := xs[0], xs[1..];
    assert x in xs;
    var ta, tb := ArgTargets(x.args, |before| + 1), Targets(more, |before| + |Encode(x)|);
    var bs, op, tail := before + EncodeAll(xs) + after, before + [x.op], EncodeAll(more) + after;
    SameLength(labels, x.args);
    Unfolded(xs, before, after);
    KnownCat(labels, ta, tb);
    FitCat(ta, tb, |bs|);
    ArgsFilled(x.args, op, tail, labels);
    FillCat(bs, ta, tb, labels);
    Regrouped(before, x.op, EncodeArgs(ResolveArgs(labels, x.args)), EncodeAll(more), after);
  }

  lemma Regrouped(before: seq<Byte>, op: Byte, args: seq<Byte>, more: seq<Byte>, after: seq<Byte>)
    ensures before + [op] + args + (more + after) == before + ([op] + args) + more + after
  {}

  lemma FitCat(a: seq<Target>, b: seq<Target>, hi: nat)
    requires Fit(a + b, 0, hi)
    ensures Fit(a, 0, hi) && Fit(b, 0, hi)
  {
    assert forall t :: t in a + b <==> t in a || t in b;
  }

  lemma Unfolded(xs: seq<Item>, before: seq<Byte>, after: seq<Byte>)
    requires xs != []
    ensures before + EncodeAll(xs) + after == before + [xs[0].op] + EncodeArgs(xs[0].args) + (EncodeAll(xs[1..]) + after)
    ensures |EncodeAll(xs)| == 1 + |EncodeArgs(xs[0].args)| + |EncodeAll(xs[1..])|
    ensures Targets(xs, |before|) == ArgTargets(xs[0].args, |before| + 1) + Targets(xs[1..], |before| + |Encode(xs[0])|)
  {
    hide EncodeArgs;
    var a, b := EncodeArgs(xs[0].args), EncodeAll(xs[1..]);
    assert before + ([xs[0].op] + a + b) + after == before + [xs[0].op] + a + (b + after);
  }

  lemma {:induction false} SameLength(labels: map<Name, nat>, args: seq<Arg>)
    requires Known(labels, args)
    ensures |EncodeArgs(ResolveArgs(labels, args))| == |EncodeArgs(args)|
    ensures Kinds(ResolveArgs(labels, args)) == Kinds(args) && Plain(ResolveArgs(labels, args))
  {
    if args != [] {
      assert args[0] in args && forall a | a in args[1..] :: a in args;
      SameLength(labels, args[1..]);
    }
  }

  lemma {:induction false} ArgsFilled(args: seq<Arg>, before: seq<Byte>, after: seq<Byte>, labels: map<Name, nat>)
    requires Known(labels, args) && Small(labels) && |before| + |EncodeArgs(args)| < WRAP
    ensures var ts, bs := ArgTargets(args, |before|), before + EncodeArgs(args) + after;
            && Fit(ts, 0, |bs|) && TargetsKnown(labels, ts)
            && FillAll(bs, ts, labels) == before + EncodeArgs(ResolveArgs(labels, args)) + after
    decreases |args|
  {
    hide KindOf, Small, OwnTarget;
    if args == [] {
      NoArgsFilled(before, after, labels);
    } else {
      hide FillAll, ArgTargets, Fit, TargetsKnown, Le, Pow256, Width, EncodeArg, EncodeArgs, ResolveArgs, Known;
      var a, more := args[0], args[1..];
      var one := if a.Ref? then Num(Ip, labels[a.name]) else a;
      ArgsSplit(args, labels);
      ArgsPlaced(args, before, after, labels);
      FirstFilled(args, before, EncodeArgs(more) + after, labels);
      if a.Ref? { OneResolved(a, labels); }
      Assoc(before, EncodeArg(a), EncodeArgs(more), after);
      Assoc(before, EncodeArg(one), EncodeArgs(more), after);
      Assoc(before, EncodeArg(one), EncodeArgs(ResolveArgs(labels, more)), after);
      ArgsFilled(more, before + EncodeArg(one), after, labels);
    }
  }

  lemma ArgsSplit(args: seq<Arg>, labels: map<Name, nat>)
    requires args != [] && Known(labels, args)
    ensures Known(labels, args[1..]) && (args[0].Ref? ==> args[0].name in labels)
    ensures EncodeArgs(args) == EncodeArg(args[0]) + EncodeArgs(args[1..])
    ensures var one := if args[0].Ref? then Num(Ip, labels[args[0].name]) else args[0];
            EncodeArgs(ResolveArgs(labels, args)) == EncodeArg(one) + EncodeArgs(ResolveArgs(labels, args[1..]))
  {
    hide EncodeArg;
    assert args[0] in args && forall b | b in args[1..] :: b in args;
  }

  lemma NoArgsFilled(before: seq<Byte>, after: seq<Byte>, labels: map<Name, nat>)
    ensures ArgTargets([], |before|) == [] && Fit([], 0, |before + EncodeArgs([]) + after|) && TargetsKnown(labels, [])
    ensures EncodeArgs(ResolveArgs(labels, [])) == EncodeArgs([]) == []
    ensures FillAll(before + EncodeArgs([]) + after, [], labels) == before + EncodeArgs([]) + after
  {}

  lemma ArgsPlaced(args: seq<Arg>, before: seq<Byte>, after: seq<Byte>, labels: map<Name, nat>)
    requires Known(labels, args)
    ensures Fit(ArgTargets(args, |before|), 0, |before + EncodeArgs(args) + after|)
    ensures TargetsKnown(labels, ArgTargets(args, |before|))
  {
    hide EncodeArgs, ArgTargets, Fit, TargetsKnown;
    ArgsFit(args, |before|);
    ArgsMention(args, |before|, labels);
    Inside(ArgTargets(args, |before|), |before| + |EncodeArgs(args)|, |before + EncodeArgs(args) + after|);
  }

  lemma OneResolved(a: Arg, labels: map<Name, nat>)
    requires Small(labels) && a.Ref? && a.name in labels
    ensures EncodeArg(Num(Ip, labels[a.name])) == Le(labels[a.name], 4)
  {
    Powers();
    hide Le;
  }

  /** The hole of the first operand, if it is one. */
  lemma FirstFilled(args: seq<Arg>, before: seq<Byte>, tail: seq<Byte>, labels: map<Name, nat>)
    requires args != [] && Known(labels, args) && Small(labels) && |before| < WRAP
    requires Fit(ArgTargets(args, |before|), 0, |before| + Width(KindOf(args[0])) + |tail|)
    requires TargetsKnown(labels, ArgTargets(args, |before|))
    ensures var a, bs := args[0], before + EncodeArg(args[0]) + tail;
            var more, at := args[1..], |before| + Width(KindOf(a));
            var first := before + (if a.Ref? then Le(labels[a.name], 4) else EncodeArg(a)) + tail;
            && |bs| == |first| == |before| + Width(KindOf(a)) + |tail|
            && Fit(ArgTargets(more, at), 0, |first|) && TargetsKnown(labels, ArgTargets(more, at))
            && FillAll(bs, ArgTargets(args, |before|), labels) == FillAll(first, ArgTargets(more, at), labels)
  {
    hide Le, Pow256, FillAll, Width;
    var a, more := args[0], args[1..];
    var at, ts := |before| + Width(KindOf(a)), ArgTargets(args, |before|);
    var bs := before + EncodeArg(a) + tail;
    assert ts == OwnTarget(a, |before|) + ArgTargets(more, at) && a in args;
    KnownCat(labels, OwnTarget(a, |before|), ArgTargets(more, at));
    FitCat(OwnTarget(a, |before|), ArgTargets(more, at), |bs|);
    hide ArgTargets, Fit, TargetsKnown;
    if a.Ref? {
      assert |before| % WRAP == |before|;
      FillFirst(before, tail, a.name, ArgTargets(more, at), labels);
    } else {
      assert ts == ArgTargets(more, at);
    }
  }

  lemma FillFirst(before: seq<Byte>, tail: seq<Byte>, name: Name, more: seq<Target>, labels: map<Name, nat>)
    requires Fit([Target(name, |before|)] + more, 0, |before + HOLE + tail|)
    requires TargetsKnown(labels, [Target(name, |before|)] + more)
    ensures name in labels
    ensures var first := before + Le(labels[name], 4) + tail;
            && Fit(more, 0, |first|) && TargetsKnown(labels, more)
            && FillAll(before + HOLE + tail, [Target(name, |before|)] + more, labels) == FillAll(first, more, labels)
  {
    hide Le;
    var ts, bs := [Target(name, |before|)] + more, before + HOLE + tail;
    assert ts[0] in ts && ts[1..] == more && forall t | t in more :: t in ts;
    assert Fill(bs, |before|, labels[name]) == before + Le(labels[name], 4) + tail;
  }
}
