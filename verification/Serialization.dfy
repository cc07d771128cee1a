/** The executable file format. Everything after the first line is read back exactly as it was written;
    nothing shorter is accepted and nothing behind it is looked at. */
module Serialization {
  import opened Bytes
  import Lang

  const FORMAT_VERSION: nat := 20

  /** `#!/usr/bin/env novrt` and a line feed. */
  const SHEBANG_LINE: seq<Byte> :=
    [35, 33, 47, 117, 115, 114, 47, 98, 105, 110, 47, 101, 110, 118, 32, 110, 111, 118, 114, 116, 10]

  const LINE_FEED: Byte := 10

  datatype Executable =
    Executable(compilerVersion: seq<Byte>, entrypoint: nat, litStrings: seq<seq<Byte>>, instructions: seq<Byte>)

  /** Lengths and the entry point are 32-bit numbers. */
  predicate Fits(e: Executable) {
    && |e.compilerVersion| < WRAP && e.entrypoint < WRAP && |e.litStrings| < WRAP && |e.instructions| < WRAP
    && forall s | s in e.litStrings :: |s| < WRAP
  }

  // ----- What is written -----

  function StringBytes(s: seq<Byte>): seq<Byte> {
    Le(|s|, 4) + s
  }

  function AllStrings(ss: seq<seq<Byte>>): seq<Byte> {
    if ss == [] then [] else StringBytes(ss[0]) + AllStrings(ss[1..])
  }

  function SetBytes(ss: seq<seq<Byte>>): seq<Byte> {
    Le(|ss|, 4) + AllStrings(ss)
  }

  lemma FirstString(ss: seq<seq<Byte>>, i: nat, before: seq<Byte>)
    requires i < |ss|
    ensures before + AllStrings(ss[i..]) == before + StringBytes(ss[i]) + AllStrings(ss[i + 1..])
  {
    hide StringBytes;
    assert ss[i..][0] == ss[i] && ss[i..][1..] == ss[i + 1..];
    assert before + (StringBytes(ss[i]) + AllStrings(ss[i + 1..])) == before + StringBytes(ss[i]) + AllStrings(ss[i + 1..]);
  }

  lemma NoStrings(ss: seq<seq<Byte>>, before: seq<Byte>)
    ensures before + AllStrings(ss[|ss|..]) == before
  {
    assert before + [] == before;
  }

  /** Everything after the first line. */
  function Body(e: Executable): seq<Byte> {
    Le(FORMAT_VERSION, 2) + (StringBytes(e.compilerVersion)
      + (Le(e.entrypoint, 4) + (SetBytes(e.litStrings) + StringBytes(e.instructions))))
  }

  function Serialized(e: Executable): seq<Byte> {
    SHEBANG_LINE + Body(e)
  }

  /** The bytes of a small file: the first line, version 20, a compiler version of one byte, entry point 5, the
      one literal "AB" and one instruction. */
  lemma ExampleFile()
    ensures |SHEBANG_LINE| == |"#!/usr/bin/env novrt\n"|
    ensures forall i | 0 <= i < |SHEBANG_LINE| :: SHEBANG_LINE[i] == "#!/usr/bin/env novrt\n"[i] as int
    ensures Serialized(Executable([49], 5, [[65, 66]], [255]))
         == SHEBANG_LINE
            + ([20, 0] + ([1, 0, 0, 0, 49] + ([5, 0, 0, 0] + ([1, 0, 0, 0, 2, 0, 0, 0, 65, 66] + [1, 0, 0, 0, 255]))))
  {
    FourBytes(20);
    FourBytes(1);
    FourBytes(2);
    FourBytes(5);
    hide Le;
    assert [[65, 66]][1..] == [] && AllStrings([]) == [];
    assert StringBytes([49]) == [1, 0, 0, 0, 49] && StringBytes([255]) == [1, 0, 0, 0, 255];
    assert StringBytes([65, 66]) == [2, 0, 0, 0, 65, 66];
    assert SetBytes([[65, 66]]) == [1, 0, 0, 0, 2, 0, 0, 0, 65, 66];
  }

  // ----- What is read -----

  /** A value read from the front of some bytes, and the bytes behind it. */
  datatype Read<+T> = Ok(val: T, rest: seq<Byte>) | Fail

  function ReadNumber(bs: seq<Byte>, size: nat): Read<nat> {
    if |bs| < size then Fail else Ok(Value(bs[..size]), bs[size..])
  }

  function ReadRaw(bs: seq<Byte>, size: nat): Read<seq<Byte>> {
    if |bs| < size then Fail else Ok(bs[..size], bs[size..])
  }

  function ReadString(bs: seq<Byte>): Read<seq<Byte>> {
    match ReadNumber(bs, 4)
    case Fail => Fail
    case Ok(n, rest) => ReadRaw(rest, n)
  }

  function ReadStrings(bs: seq<Byte>, n: nat): Read<seq<seq<Byte>>> {
    if n == 0 then Ok([], bs)
    else
      match ReadString(bs)
      case Fail => Fail
      case Ok(s, rest) =>
        match ReadStrings(rest, n - 1)
        case Fail => Fail
        case Ok(ss, rest2) => Ok([s] + ss, rest2)
  }

  function ReadSet(bs: seq<Byte>): Read<seq<seq<Byte>>> {
    match ReadNumber(bs, 4)
    case Fail => Fail
    case Ok(n, rest) => ReadStrings(rest, n)
  }

  function SkipLine(bs: seq<Byte>): seq<Byte> {
    if bs == [] then [] else if bs[0] == LINE_FEED then bs[1..] else SkipLine(bs[1..])
  }

  /** The version of the format is compared only after the compiler's version has been read. */
  function ReadBody(bs: seq<Byte>): Read<Executable> {
    match ReadNumber(bs, 2)
    case Fail => Fail
    case Ok(version, r1) =>
      match ReadString(r1)
      case Fail => Fail
      case Ok(compilerVersion, r2) =>
        if version != FORMAT_VERSION then Fail
        else
          match ReadNumber(r2, 4)
          case Fail => Fail
          case Ok(entrypoint, r3) =>
            match ReadSet(r3)
            case Fail => Fail
            case Ok(litStrings, r4) =>
              match ReadString(r4)
              case Fail => Fail
              case Ok(instructions, r5) => Ok(Executable(compilerVersion, entrypoint, litStrings, instructions), r5)
  }

  function Deserialized(bs: seq<Byte>): Lang.Option<Executable> {
    match ReadBody(SkipLine(bs))
    case Fail => Lang.None
    case Ok(e, _) => Lang.Some(e)
  }

  // ----- Each reader accepts exactly what its writer writes -----

  lemma NumberExact(bs: seq<Byte>, size: nat, v: nat, rest: seq<Byte>)
    ensures ReadNumber(bs, size) == Ok(v, rest) <==> v < Pow256(size) && bs == Le(v, size) + rest
  {
    ValueOfLe(v, size);
    if |bs| >= size {
      LeOfValue(bs[..size]);
      assert bs == bs[..size] + bs[size..];
    }
    assert (Le(v, size) + rest)[..size] == Le(v, size) && (Le(v, size) + rest)[size..] == rest;
  }

  lemma StringExact(bs: seq<Byte>, s: seq<Byte>, rest: seq<Byte>)
    ensures ReadString(bs) == Ok(s, rest) <==> |s| < WRAP && bs == StringBytes(s) + rest
  {
    Powers();
    if ReadString(bs) == Ok(s, rest) {
      var r := ReadNumber(bs, 4);
      NumberExact(bs, 4, r.val, r.rest);
      assert r.rest == s + rest && |s| == r.val by { assert r.rest == r.rest[..r.val] + r.rest[r.val..]; }
      assert bs == Le(|s|, 4) + (s + rest);
      assert bs == StringBytes(s) + rest;
    }
    if |s| < WRAP && bs == StringBytes(s) + rest {
      assert bs == Le(|s|, 4) + (s + rest);
      NumberExact(bs, 4, |s|, s + rest);
      assert (s + rest)[..|s|] == s && (s + rest)[|s|..] == rest;
    }
  }

  predicate AllFit(ss: seq<seq<Byte>>) {
    forall s | s in ss :: |s| < WRAP
  }

  lemma {:induction false} StringsExact(bs: seq<Byte>, n: nat, ss: seq<seq<Byte>>, rest: seq<Byte>)
    ensures ReadStrings(bs, n) == Ok(ss, rest) <==> |ss| == n && AllFit(ss) && bs == AllStrings(ss) + rest
    decreases n, 1
  {
    if n == 0 {
      assert [] + rest == rest;
    } else {
      hide ReadStrings, AllStrings;
      if ReadStrings(bs, n) == Ok(ss, rest) { StringsRead(bs, n, ss, rest); }
      if |ss| == n && AllFit(ss) && bs == AllStrings(ss) + rest { StringsReadBack(bs, n, ss, rest); }
    }
  }

  lemma {:induction false} StringsRead(bs: seq<Byte>, n: nat, ss: seq<seq<Byte>>, rest: seq<Byte>)
    requires n > 0 && ReadStrings(bs, n) == Ok(ss, rest)
    ensures |ss| == n && AllFit(ss) && bs == AllStrings(ss) + rest
    decreases n, 0
  {
    hide ReadString, StringBytes;
    var r := ReadString(bs);
    StringExact(bs, r.val, r.rest);
    assert ss == [r.val] + ss[1..];
    StringsExact(r.rest, n - 1, ss[1..], rest);
    assert bs == StringBytes(ss[0]) + (AllStrings(ss[1..]) + rest);
    assert bs == AllStrings(ss) + rest;
  }

  lemma {:induction false} StringsReadBack(bs: seq<Byte>, n: nat, ss: seq<seq<Byte>>, rest: seq<Byte>)
    requires n > 0 && |ss| == n && AllFit(ss) && bs == AllStrings(ss) + rest
    ensures ReadStrings(bs, n) == Ok(ss, rest)
    decreases n, 0
  {
    hide ReadString, StringBytes;
    assert ss[0] in ss && forall s | s in ss[1..] :: s in ss;
    var more := AllStrings(ss[1..]) + rest;
    assert bs == StringBytes(ss[0]) + more;
    StringExact(bs, ss[0], more);
    StringsExact(more, n - 1, ss[1..], rest);
    assert ss == [ss[0]] + ss[1..];
  }

  lemma SetExact(bs: seq<Byte>, ss: seq<seq<Byte>>, rest: seq<Byte>)
    ensures ReadSet(bs) == Ok(ss, rest) <==> |ss| < WRAP && AllFit(ss) && bs == SetBytes(ss) + rest
  {
    Powers();
    hide ReadStrings, ReadNumber, Le, AllStrings;
    if ReadSet(bs) == Ok(ss, rest) {
      var r := ReadNumber(bs, 4);
      NumberExact(bs, 4, r.val, r.rest);
      StringsExact(r.rest, r.val, ss, rest);
      assert bs == Le(|ss|, 4) + (AllStrings(ss) + rest);
      assert bs == SetBytes(ss) + rest;
    }
    if |ss| < WRAP && AllFit(ss) && bs == SetBytes(ss) + rest {
      assert bs == Le(|ss|, 4) + (AllStrings(ss) + rest);
      NumberExact(bs, 4, |ss|, AllStrings(ss) + rest);
      StringsExact(AllStrings(ss) + rest, |ss|, ss, rest);
    }
  }

  /** Everything after the first line is accepted exactly when it starts with what is written. */
  lemma BodyExact(bs: seq<Byte>, e: Executable, rest: seq<Byte>)
    ensures ReadBody(bs) == Ok(e, rest) <==> Fits(e) && bs == Body(e) + rest
  {
    Powers();
    hide ReadNumber, ReadString, ReadSet, Le, StringBytes, SetBytes;
    if ReadBody(bs) == Ok(e, rest) {
      var r1 := ReadNumber(bs, 2);
      var r2 := ReadString(r1.rest);
      var r3 := ReadNumber(r2.rest, 4);
      var r4 := ReadSet(r3.rest);
      NumberExact(bs, 2, r1.val, r1.rest);
      StringExact(r1.rest, r2.val, r2.rest);
      NumberExact(r2.rest, 4, r3.val, r3.rest);
      SetExact(r3.rest, r4.val, r4.rest);
      StringExact(r4.rest, e.instructions, rest);
      Regrouped(e, rest);
    }
    if Fits(e) && bs == Body(e) + rest {
      Regrouped(e, rest);
      var t4 := StringBytes(e.instructions) + rest;
      var t3 := SetBytes(e.litStrings) + t4;
      var t2 := Le(e.entrypoint, 4) + t3;
      var t1 := StringBytes(e.compilerVersion) + t2;
      NumberExact(bs, 2, FORMAT_VERSION, t1);
      StringExact(t1, e.compilerVersion, t2);
      NumberExact(t2, 4, e.entrypoint, t3);
      SetExact(t3, e.litStrings, t4);
      StringExact(t4, e.instructions, rest);
    }
  }

  lemma Regrouped(e: Executable, rest: seq<Byte>)
    ensures Body(e) + rest
         == Le(FORMAT_VERSION, 2) + (StringBytes(e.compilerVersion)
              + (Le(e.entrypoint, 4) + (SetBytes(e.litStrings) + (StringBytes(e.instructions) + rest))))
  {
    FiveGrouped(Le(FORMAT_VERSION, 2), StringBytes(e.compilerVersion), Le(e.entrypoint, 4), SetBytes(e.litStrings),
                StringBytes(e.instructions), rest);
  }

  lemma FiveGrouped(a: seq<Byte>, b: seq<Byte>, c: seq<Byte>, d: seq<Byte>, f: seq<Byte>, g: seq<Byte>)
    ensures a + (b + (c + (d + f))) + g == a + (b + (c + (d + (f + g))))
  {
    assert b + (c + (d + f)) + g == b + (c + (d + (f + g))) by {
      assert c + (d + f) + g == c + (d + (f + g));
    }
  }

  lemma {:induction false} SkipExact(bs: seq<Byte>, line: seq<Byte>)
    requires LINE_FEED !in line
    ensures SkipLine(line) == []
    ensures SkipLine(line + [LINE_FEED] + bs) == bs
  {
    if line != [] {
      assert (line + [LINE_FEED] + bs)[1..] == line[1..] + [LINE_FEED] + bs;
      SkipExact(bs, line[1..]);
    }
  }

  lemma ShebangSkipped(bs: seq<Byte>)
    ensures SkipLine(SHEBANG_LINE + bs) == bs
    ensures forall n | 0 <= n < |SHEBANG_LINE| :: SkipLine(SHEBANG_LINE[..n]) == []
  {
    var line := SHEBANG_LINE[..20];
    assert SHEBANG_LINE == line + [LINE_FEED];
    SkipExact(bs, line);
    forall n | 0 <= n < |SHEBANG_LINE| ensures SkipLine(SHEBANG_LINE[..n]) == [] {
      SkipExact([], SHEBANG_LINE[..n]);
    }
  }

  // ----- The format -----

  /** What is written is read back, whatever follows it. */
  lemma RoundTrip(e: Executable, more: seq<Byte>)
    requires Fits(e)
    ensures Deserialized(Serialized(e) + more) == Lang.Some(e)
  {
    ShebangSkipped(Body(e) + more);
    assert Serialized(e) + more == SHEBANG_LINE + (Body(e) + more);
    BodyExact(Body(e) + more, e, more);
  }

  /** No strict prefix of a file is accepted. */
  lemma PrefixRejected(e: Executable, n: nat)
    requires Fits(e) && n < |Serialized(e)|
    ensures Deserialized(Serialized(e)[..n]) == Lang.None
  {
    hide Body, ReadBody;
    var m := |SHEBANG_LINE|;
    var cut := if n < m then [] else Body(e)[..n - m];
    ShebangSkipped(cut);
    if n < m {
      assert Serialized(e)[..n] == SHEBANG_LINE[..n];
    } else {
      assert Serialized(e)[..n] == SHEBANG_LINE + cut;
    }
    BodyNotEmpty(e);
    assert cut < Body(e);
    var r := ReadBody(cut);
    if r.Ok? {
      BodyExact(cut, r.val, r.rest);
      var tail := Body(e)[|cut|..];
      assert Body(e) == Body(r.val) + (r.rest + tail);
      assert Body(e) + [] == Body(e);
      BodyExact(Body(e), e, []);
      BodyExact(Body(e), r.val, r.rest + tail);
    }
  }

  lemma BodyNotEmpty(e: Executable)
    ensures Body(e) != []
  {}

  /** Which files are accepted, and as what: any first line, then exactly what is written for e. */
  lemma DeserializeExact(bs: seq<Byte>, e: Executable)
    ensures Deserialized(bs) == Lang.Some(e)
       <==> Fits(e) && exists line, more :: LINE_FEED !in line && bs == line + [LINE_FEED] + (Body(e) + more)
  {
    hide Body, ReadBody;
    if Deserialized(bs) == Lang.Some(e) {
      var rest := ReadBody(SkipLine(bs)).rest;
      BodyExact(SkipLine(bs), e, rest);
      BodyNotEmpty(e);
      var line := FirstLine(bs);
      assert bs == line + [LINE_FEED] + (Body(e) + rest);
    }
    if line, more :| Fits(e) && LINE_FEED !in line && bs == line + [LINE_FEED] + (Body(e) + more) {
      SkipExact(Body(e) + more, line);
      BodyExact(Body(e) + more, e, more);
    }
  }

  lemma {:induction false} FirstLine(bs: seq<Byte>) returns (line: seq<Byte>)
    requires SkipLine(bs) != []
    ensures LINE_FEED !in line && bs == line + [LINE_FEED] + SkipLine(bs)
  {
    if bs[0] == LINE_FEED {
      line := [];
    } else {
      line := FirstLine(bs[1..]);
      line := [bs[0]] + line;
    }
  }

  // ----- The writer and the reader as they run -----

  class Writer {
    var output: seq<Byte>

    constructor ()
      ensures output == []
    {
      output := [];
    }

    method WriteUInt8(val: Byte)
      modifies this
      ensures output == old(output) + [val]
    {
      output := output + [val];
    }

    method WriteUInt16(val: nat)
      modifies this
      ensures output == old(output) + Le(val, 2)
    {
      WriteUInt8(val % 256);
      WriteUInt8(val / 0x100 % 256);
      FourBytes(val);
    }

    method WriteUInt32(val: nat)
      modifies this
      ensures output == old(output) + Le(val, 4)
    {
      WriteUInt8(val % 256);
      WriteUInt8(val / 0x100 % 256);
      WriteUInt8(val / 0x1_0000 % 256);
      WriteUInt8(val / 0x100_0000 % 256);
      FourBytes(val);
    }

    method WriteRaw(bytes: seq<Byte>)
      modifies this
      ensures output == old(output) + bytes
    {
      for i := 0 to |bytes|
        invariant output == old(output) + bytes[..i]
      {
        WriteUInt8(bytes[i]);
        assert bytes[..i + 1] == bytes[..i] + [bytes[i]];
      }
      assert bytes[..|bytes|] == bytes;
    }

    method WriteString(str: seq<Byte>)
      modifies this
      ensures output == old(output) + StringBytes(str)
    {
      WriteUInt32(|str|);
      WriteRaw(str);
    }

    method WriteSet(elems: seq<seq<Byte>>)
      modifies this
      ensures output == old(output) + SetBytes(elems)
    {
      hide AllStrings, StringBytes, Le;
      WriteUInt32(|elems|);
      ghost var start := output;
      assert elems[0..] == elems;
      for i := 0 to |elems|
        invariant output + AllStrings(elems[i..]) == start + AllStrings(elems)
      {
        FirstString(elems, i, output);
        WriteString(elems[i]);
      }
      NoStrings(elems, output);
      assert old(output) + Le(|elems|, 4) + AllStrings(elems) == old(output) + (Le(|elems|, 4) + AllStrings(elems));
    }

    method Serialize(e: Executable)
      modifies this
      ensures output == old(output) + Serialized(e)
    {
      hide Le, StringBytes, SetBytes;
      WriteRaw(SHEBANG_LINE);
      WriteUInt16(FORMAT_VERSION);
      WriteString(e.compilerVersion);
      WriteUInt32(e.entrypoint);
      WriteSet(e.litStrings);
      WriteUInt32(|e.instructions|);
      WriteRaw(e.instructions);
      Appended(old(output), e);
    }
  }

  lemma Appended(before: seq<Byte>, e: Executable)
    ensures before + SHEBANG_LINE + Le(FORMAT_VERSION, 2) + StringBytes(e.compilerVersion) + Le(e.entrypoint, 4)
              + SetBytes(e.litStrings) + Le(|e.instructions|, 4) + e.instructions
         == before + Serialized(e)
  {
    var a, b, c, d := Le(FORMAT_VERSION, 2), StringBytes(e.compilerVersion), Le(e.entrypoint, 4), SetBytes(e.litStrings);
    var f, g := Le(|e.instructions|, 4), e.instructions;
    assert StringBytes(g) == f + g;
    hide Le, StringBytes, SetBytes;
    SevenGrouped(before + SHEBANG_LINE, a, b, c, d, f, g);
    assert before + SHEBANG_LINE + Body(e) == before + Serialized(e);
  }

  lemma SevenGrouped(
    s: seq<Byte>, a: seq<Byte>, b: seq<Byte>, c: seq<Byte>, d: seq<Byte>, f: seq<Byte>, g: seq<Byte>)
    ensures s + a + b + c + d + f + g == s + (a + (b + (c + (d + (f + g)))))
  {
    assert s + a + b + c + d + f + g == s + a + b + c + (d + (f + g));
    assert s + a + b + c + (d + (f + g)) == s + a + (b + (c + (d + (f + g))));
  }

  class Reader {
    const input: seq<Byte>
    var pos: nat

    constructor (input: seq<Byte>)
      ensures Valid() && this.input == input && Rest() == input
    {
      this.input := input;
      pos := 0;
    }

    ghost predicate Valid()
      reads this
    {
      pos <= |input|
    }

    ghost function Rest(): seq<Byte>
      requires Valid()
      reads this
    {
      input[pos..]
    }

    method ReadUInt8() returns (val: Lang.Option<Byte>)
      requires Valid()
      modifies this
      ensures Valid() && val.Some? == (old(Rest()) != [])
      ensures val.Some? ==> old(Rest()) == [val.value] + Rest()
    {
      if pos == |input| { return Lang.None; }
      val := Lang.Some(input[pos]);
      pos := pos + 1;
    }

    /** The first failing byte ends the read. */
    method ReadUInt16() returns (val: Lang.Option<nat>)
      requires Valid()
      modifies this
      ensures Valid() && Is(val, old(ReadNumber(Rest(), 2)))
    {
      ghost var start := Rest();
      var a := ReadUInt8();
      if a.None? { return Lang.None; }
      var b := ReadUInt8();
      if b.None? { return Lang.None; }
      assert start == [a.value, b.value] + Rest();
      assert start[..2] == [a.value, b.value] && start[2..] == Rest();
      TwoRead(a.value, b.value);
      var lo: nat, hi: nat := a.value, b.value;
      val := Lang.Some(lo + hi * 0x100);
    }

    method ReadUInt32() returns (val: Lang.Option<nat>)
      requires Valid()
      modifies this
      ensures Valid() && Is(val, old(ReadNumber(Rest(), 4)))
    {
      ghost var start := Rest();
      var a := ReadUInt8();
      if a.None? { return Lang.None; }
      var b := ReadUInt8();
      if b.None? { return Lang.None; }
      var c := ReadUInt8();
      if c.None? { return Lang.None; }
      var d := ReadUInt8();
      if d.None? { return Lang.None; }
      assert start == [a.value, b.value, c.value, d.value] + Rest();
      assert start[..4] == [a.value, b.value, c.value, d.value] && start[4..] == Rest();
      FourRead(a.value, b.value, c.value, d.value);
      var b0: nat, b1: nat, b2: nat, b3: nat := a.value, b.value, c.value, d.value;
      val := Lang.Some(b0 + b1 * 0x100 + b2 * 0x1_0000 + b3 * 0x100_0000);
    }

    method ReadBytes(size: nat) returns (val: Lang.Option<seq<Byte>>)
      requires Valid()
      modifies this
      ensures Valid() && Is(val, old(ReadRaw(Rest(), size)))
    {
      ghost var start := Rest();
      var result: seq<Byte> := [];
      for i := 0 to size
        invariant Valid() && i <= |start| && Rest() == start[i..] && result == start[..i]
      {
        var b := ReadUInt8();
        if b.None? { return Lang.None; }
        result := result + [b.value];
      }
      val := Lang.Some(result);
    }

    method ReadStr() returns (val: Lang.Option<seq<Byte>>)
      requires Valid()
      modifies this
      ensures Valid() && Is(val, old(ReadString(Rest())))
    {
      var size := ReadUInt32();
      if size.None? { return Lang.None; }
      val := ReadBytes(size.value);
    }

    method ReadStringSet() returns (val: Lang.Option<seq<seq<Byte>>>)
      requires Valid()
      modifies this
      ensures Valid() && Is(val, old(ReadSet(Rest())))
    {
      hide ReadString, ReadRaw, ReadNumber;
      var size := ReadUInt32();
      if size.None? { return Lang.None; }
      var result: seq<seq<Byte>> := [];
      ghost var all := ReadStrings(Rest(), size.value);
      NothingFirst(all);
      for i := 0 to size.value
        invariant Valid() && all == Behind(result, ReadStrings(Rest(), size.value - i))
      {
        ghost var more := ReadString(Rest());
        var elem := ReadStr();
        if elem.None? { return Lang.None; }
        OneFirst(result, elem.value, ReadStrings(Rest(), size.value - i - 1));
        result := result + [elem.value];
      }
      assert result + [] == result;
      val := Lang.Some(result);
    }

    method SkipFirstLine()
      requires Valid()
      modifies this
      ensures Valid() && Rest() == old(SkipLine(Rest()))
    {
      while pos != |input|
        invariant Valid() && SkipLine(Rest()) == old(SkipLine(Rest()))
        decreases |input| - pos
      {
        assert Rest()[1..] == input[pos + 1..];
        var b := input[pos];
        pos := pos + 1;
        if b == LINE_FEED { return; }
      }
    }

    method Deserialize() returns (e: Lang.Option<Executable>)
      requires Valid()
      modifies this
      ensures Valid() && e == old(Deserialized(Rest()))
    {
      hide ReadNumber, ReadString, ReadSet, SkipLine;
      SkipFirstLine();
      var formatVersion := ReadUInt16();
      if formatVersion.None? { return Lang.None; }
      var compilerVersion := ReadStr();
      if compilerVersion.None? { return Lang.None; }
      if formatVersion.value != FORMAT_VERSION { return Lang.None; }
      var entrypoint := ReadUInt32();
      if entrypoint.None? { return Lang.None; }
      var litStrings := ReadStringSet();
      if litStrings.None? { return Lang.None; }
      var instructions := ReadCode();
      if instructions.None? { return Lang.None; }
      e := Lang.Some(Executable(compilerVersion.value, entrypoint.value, litStrings.value, instructions.value));
    }

    method ReadCode() returns (val: Lang.Option<seq<Byte>>)
      requires Valid()
      modifies this
      ensures Valid() && Is(val, old(ReadString(Rest())))
    {
      var size := ReadUInt32();
      if size.None? { return Lang.None; }
      val := ReadBytes(size.value);
    }

    /** The result r of a read, and where the reader is after a successful one. */
    ghost predicate Is<T(!new)>(val: Lang.Option<T>, r: Read<T>)
      requires Valid()
      reads this
    {
      if val.Some? then r == Ok(val.value, Rest()) else r.Fail?
    }
  }

  function Behind(first: seq<seq<Byte>>, r: Read<seq<seq<Byte>>>): Read<seq<seq<Byte>>> {
    match r
    case Fail => Fail
    case Ok(ss, rest) => Ok(first + ss, rest)
  }

  lemma NothingFirst(r: Read<seq<seq<Byte>>>)
    ensures Behind([], r) == r
  {
    if r.Ok? { assert [] + r.val == r.val; }
  }

  lemma OneFirst(first: seq<seq<Byte>>, s: seq<Byte>, r: Read<seq<seq<Byte>>>)
    ensures r.Ok? ==> Behind(first, Ok([s] + r.val, r.rest)) == Behind(first + [s], r)
  {
    if r.Ok? { assert first + ([s] + r.val) == first + [s] + r.val; }
  }

  lemma TwoRead(a: Byte, b: Byte)
    ensures Value([a, b]) == a + b * 0x100
  {
    assert [a, b][1..] == [b] && [b][1..] == [] && Value([b]) == b + 256 * Value([]);
  }

  lemma FourRead(a: Byte, b: Byte, c: Byte, d: Byte)
    ensures Value([a, b, c, d]) == a + b * 0x100 + c * 0x1_0000 + d * 0x100_0000
  {
    TwoRead(c, d);
    assert [a, b, c, d][1..] == [b, c, d] && [b, c, d][1..] == [c, d];
    assert Value([b, c, d]) == b + 256 * Value([c, d]);
  }
}
