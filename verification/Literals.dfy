/** Numeric, string and character literals. Numbers are read with 64-bit arithmetic and overflow flags;
    the specification uses unbounded numbers. */
module Literals {
  import Lang
  import opened Quoted

  const U64_MAX: nat := 0xffff_ffff_ffff_ffff
  const U32_MAX: nat := 0xffff_ffff
  const I64_MAX: nat := 0x7fff_ffff_ffff_ffff
  const I32_MAX: nat := 0x7fff_ffff

  datatype NumberError =
    | InvalidChar | EndsWithSeparator | EndsWithDecimalPoint | IntTooBig | LongTooBig | FloatUnrepresentable | NoDigits

  /** A float is the quotient that is rounded. */
  datatype NumberToken = IntToken(val: int) | LongToken(val: int) | FloatToken(num: nat, div: nat) | Bad(error: NumberError)

  const SEPARATORS: string := "\0\t\n\r !\"#$%&()*+,-./:;<=>?@[\\]^`{|}~"

  predicate IsSeparator(c: char) {
    c in SEPARATORS
  }

  predicate IsDigit(c: char) {
    '0' <= c <= '9'
  }

  predicate IsL(c: char) {
    c == 'l' || c == 'L'
  }

  /** The digit that c is in the given base, if it is one. */
  function DigitOf(c: char, base: nat): Lang.Option<nat> {
    var d :=
      if '0' <= c <= '9' then c as int - '0' as int
      else if 'a' <= c <= 'f' then c as int - 'a' as int + 10
      else if 'A' <= c <= 'F' then c as int - 'A' as int + 10
      else base;
    if d < base then Lang.Some(d) else Lang.None
  }

  // ----- Numbers without bounds -----

  /** The number that the digits of a text spell, whatever lies between them. */
  function Value(text: string, base: nat): nat {
    if text == [] then 0
    else
      var v, d := Value(text[..|text| - 1], base), DigitOf(text[|text| - 1], base);
      if d.Some? then v * base + d.value else v
  }

  /** How many digits stand after the decimal point. */
  function Decimals(text: string): nat {
    if text == [] then 0
    else
      var rest := text[..|text| - 1];
      Decimals(rest) + if IsDigit(text[|text| - 1]) && '.' in rest then 1 else 0
  }

  function Pow10(n: nat): (r: nat)
    ensures r > 0
  {
    if n == 0 then 1 else 10 * Pow10(n - 1)
  }

  /** Digits and the underscores that may separate them. */
  predicate Whole(text: string, base: nat) {
    forall c | c in text :: DigitOf(c, base).Some? || c == '_'
  }

  predicate WithL(text: string, base: nat) {
    text != [] && IsL(text[|text| - 1]) && Whole(text[..|text| - 1], base)
  }

  /** One decimal point between digits. */
  predicate Fraction(text: string)
    decreases |text|
  {
    text != [] &&
    var init, c := text[..|text| - 1], text[|text| - 1];
    if c == '.' then Whole(init, 10) else (IsDigit(c) || c == '_') && Fraction(init)
  }

  predicate EndsWith(text: string, c: char) {
    text != [] && text[|text| - 1] == c
  }

  /** The token of a decimal literal. */
  function Decimal(text: string): NumberToken {
    var v := Value(text, 10);
    if Whole(text, 10) then
      if EndsWith(text, '_') then Bad(EndsWithSeparator) else if v > I32_MAX then Bad(IntTooBig) else IntToken(v)
    else if WithL(text, 10) then
      if v > I64_MAX then Bad(LongTooBig) else LongToken(v)
    else if Fraction(text) then
      if EndsWith(text, '_') then Bad(EndsWithSeparator)
      else if EndsWith(text, '.') then Bad(EndsWithDecimalPoint)
      else if v > U64_MAX || Pow10(Decimals(text)) > U64_MAX then Bad(FloatUnrepresentable)
      else FloatToken(v, Pow10(Decimals(text)))
    else Bad(InvalidChar)
  }

  /** The token of a hexadecimal or binary literal, from the text behind its prefix; the number is read
      as two's complement. */
  function Radix(text: string, base: nat): NumberToken {
    var v := Value(text, base);
    if Whole(text, base) then
      if EndsWith(text, '_') then Bad(EndsWithSeparator)
      else if v > U32_MAX then Bad(IntTooBig)
      else IntToken(if v > I32_MAX then v - 0x1_0000_0000 else v)
    else if WithL(text, base) then
      if v > U64_MAX then Bad(LongTooBig) else LongToken(if v > I64_MAX then v - 0x1_0000_0000_0000_0000 else v)
    else Bad(InvalidChar)
  }

  /** The token of a static int, from the text behind the number sign and a minus. */
  function StaticInt(text: string, negative: bool): NumberToken {
    var v: int := Value(text, 10);
    if NotAllDigits(text) then Bad(InvalidChar)
    else if text == [] then Bad(NoDigits)
    else if v > I32_MAX then Bad(IntTooBig)
    else IntToken(if negative then -v else v)
  }

  predicate NotAllDigits(text: string) {
    exists c :: c in text && !IsDigit(c)
  }

  // ----- How far a literal reaches -----

  /** The whole literal, when `text` has been read and ts follows. */
  function DecimalText(text: string, ts: string): (r: string)
    ensures text <= r && |r| <= |text| + |ts| && r[|text|..] == ts[..|r| - |text|]
    decreases |ts|
  {
    if ts == [] || (IsSeparator(ts[0]) && ts[0] != '.') then text
    else if IsL(ts[0]) && '.' !in text then text + [ts[0]]
    else DecimalText(text + [ts[0]], ts[1..])
  }

  function RadixText(text: string, ts: string): (r: string)
    ensures text <= r && |r| <= |text| + |ts| && r[|text|..] == ts[..|r| - |text|]
    decreases |ts|
  {
    if ts == [] || IsSeparator(ts[0]) then text
    else if IsL(ts[0]) then text + [ts[0]]
    else RadixText(text + [ts[0]], ts[1..])
  }

  function StaticText(text: string, ts: string): (r: string)
    ensures text <= r && |r| <= |text| + |ts| && r[|text|..] == ts[..|r| - |text|]
    decreases |ts|
  {
    if ts == [] || (IsSeparator(ts[0]) && ts[0] != '-') then text
    else
      var r := StaticText(text + [ts[0]], ts[1..]);
      assert r[|text|] == (text + [ts[0]])[|text|] && r[|text|..] == [r[|text|]] + r[|text| + 1..];
      r
  }

  // ----- Reading one more character -----

  lemma Snoc(text: string, c: char, base: nat)
    ensures Value(text + [c], base)
         == if DigitOf(c, base).Some? then Value(text, base) * base + DigitOf(c, base).value else Value(text, base)
    ensures Whole(text + [c], base) <==> Whole(text, base) && (DigitOf(c, base).Some? || c == '_')
    ensures WithL(text + [c], base) <==> Whole(text, base) && IsL(c)
    ensures (text + [c])[..|text|] == text && (text + [c])[|text|] == c
  {
    assert (text + [c])[..|text|] == text;
    assert forall x :: x in text + [c] <==> x in text || x == c;
  }

  lemma SnocFraction(text: string, c: char)
    ensures Decimals(text + [c]) == Decimals(text) + if IsDigit(c) && '.' in text then 1 else 0
    ensures Fraction(text + [c]) <==> if c == '.' then Whole(text, 10) else (IsDigit(c) || c == '_') && Fraction(text)
  {
    assert (text + [c])[..|text|] == text;
  }

  lemma {:induction false} FractionHasPoint(text: string)
    ensures Fraction(text) ==> '.' in text && !Whole(text, 10)
    ensures Whole(text, 10) ==> '.' !in text
    decreases |text|
  {
    if text != [] {
      var init, c := text[..|text| - 1], text[|text| - 1];
      FractionHasPoint(init);
      assert text == init + [c];
    }
  }

  // ----- The lexer as it runs -----

  class Lexer {
    const input: string
    var inputPos: nat

    constructor (input: string)
      requires NUL !in input
      ensures Valid() && Remaining() == input
    {
      this.input := input;
      inputPos := 0;
    }

    ghost predicate Valid()
      reads this
    {
      inputPos <= |input| && NUL !in input
    }

    ghost function Remaining(): string
      requires Valid()
      reads this
    {
      input[inputPos..]
    }

    method PeekChar() returns (c: char)
      requires Valid()
      ensures c == First(Remaining())
    {
      c := if inputPos == |input| then NUL else input[inputPos];
    }

    /** At the end of the input it answers NUL and stays. */
    method ConsumeChar() returns (c: char)
      requires Valid()
      modifies this
      ensures Valid() && c == First(old(Remaining())) && Remaining() == Behind(old(Remaining()))
    {
      if inputPos == |input| { return NUL; }
      c := input[inputPos];
      inputPos := inputPos + 1;
    }

    /** A decimal literal whose first character has been consumed. */
    method NextLitNumber(mostSignificant: char) returns (token: NumberToken)
      requires Valid() && (IsDigit(mostSignificant) || mostSignificant == '.')
      modifies this
      ensures Valid()
      ensures var text := DecimalText([mostSignificant], old(Remaining()));
              token == Decimal(text) && Remaining() == old(Remaining())[|text| - 1..]
    {
      var passedDecPoint := mostSignificant == '.';
      var result: nat := if passedDecPoint then 0 else mostSignificant as int - '0' as int;
      var tooBig, containsInvalidChar, isLong, divider: nat, curChar := false, false, false, 1, mostSignificant;
      ghost var text := [mostSignificant];
      hide Value, Decimals, Whole, WithL, Fraction, Pow10;
      FirstDigit(mostSignificant);
      var next := PeekChar();
      while !isLong && (!IsSeparator(next) || next == '.')
        invariant Valid() && next == First(Remaining())
        invariant EndsWith(text, curChar) && |text| - 1 <= |old(Remaining())|
        invariant Remaining() == old(Remaining())[|text| - 1..]
        invariant if isLong then DecimalText([mostSignificant], old(Remaining())) == text
                  else DecimalText([mostSignificant], old(Remaining())) == DecimalText(text, Remaining())
        invariant ReadDecimal(text, result, divider, passedDecPoint, tooBig, containsInvalidChar, isLong)
        decreases |Remaining()|, !isLong
      {
        assert Remaining() != [] by { NulSeparates(); }
        curChar := ConsumeChar();
        result, divider, passedDecPoint, tooBig, containsInvalidChar, isLong :=
          ReadDecimalChar(text, curChar, result, divider, passedDecPoint, tooBig, containsInvalidChar);
        text := text + [curChar];
        next := PeekChar();
      }
      assert DecimalText([mostSignificant], old(Remaining())) == text;
      token := DecimalToken(text, result, divider, passedDecPoint, tooBig, containsInvalidChar, isLong, curChar);
    }

    /** One character of a decimal literal. */
    method ReadDecimalChar(
      ghost text: string, c: char, result0: nat, divider0: nat, passed0: bool, tooBig0: bool, invalid0: bool)
      returns (result: nat, divider: nat, passed: bool, tooBig: bool, invalid: bool, isLong: bool)
      requires ReadDecimal(text, result0, divider0, passed0, tooBig0, invalid0, false)
      ensures ReadDecimal(text + [c], result, divider, passed, tooBig, invalid, isLong)
      ensures isLong <==> IsL(c) && '.' !in text
    {
      hide Value, Decimals, Whole, WithL, Fraction, Pow10;
      Grown(text, c);
      result, divider, passed, tooBig, invalid, isLong := result0, divider0, passed0, tooBig0, invalid0, false;
      if IsDigit(c) {
        result, divider, tooBig := AddDigit(text, c, result, divider, passed, tooBig);
      } else if c == '_' {
      } else if !passed && c == '.' {
        passed := true;
      } else if !passed && IsL(c) {
        isLong := true;
      } else {
        invalid := true;
      }
    }

    /** One more digit of a decimal literal, unless it would overflow. */
    method AddDigit(ghost text: string, c: char, result0: nat, divider0: nat, passed: bool, tooBig0: bool)
      returns (result: nat, divider: nat, tooBig: bool)
      requires IsDigit(c) && (passed <==> '.' in text) && Exact(text, result0, divider0, tooBig0)
      ensures Exact(text + [c], result, divider, tooBig)
    {
      Snoc(text, c, 10);
      SnocFraction(text, c);
      result, divider, tooBig := result0, divider0, tooBig0;
      var add := c as int - '0' as int;
      if result > (U64_MAX - add) / 10 {
        tooBig := true;
      } else {
        result := result * 10 + add;
        if passed {
          if divider > U64_MAX / 10 {
            tooBig := true;
          } else {
            divider := divider * 10;
          }
        }
      }
    }

    /** One character of a hexadecimal literal. */
    method ReadHexChar(ghost text: string, c: char, result0: nat, invalid0: bool, tooBig0: bool)
      returns (result: nat, invalid: bool, isLong: bool, tooBig: bool)
      requires ReadRadix(text, 16, result0, tooBig0, invalid0, false)
      ensures ReadRadix(text + [c], 16, result, tooBig, invalid, isLong) && isLong == IsL(c)
    {
      Snoc(text, c, 16);
      hide Value, Whole, WithL;
      result, invalid, isLong, tooBig := result0, invalid0, false, tooBig0;
      var toAdd: nat := 0;
      if IsDigit(c) {
        toAdd := c as int - '0' as int;
      } else if 'a' <= c <= 'f' {
        toAdd := c as int - ('a' as int - 10);
      } else if 'A' <= c <= 'F' {
        toAdd := c as int - ('A' as int - 10);
      } else if c == '_' {
        return;
      } else if IsL(c) {
        isLong := true;
        return;
      } else {
        invalid := true;
      }
      if result > (U64_MAX - toAdd) / 16 {
        tooBig := true;
      } else {
        result := result * 16 + toAdd;
      }
    }

    /** A hexadecimal literal whose prefix has been consumed. */
    method NextLitNumberHex() returns (token: NumberToken)
      requires Valid()
      modifies this
      ensures Valid()
      ensures var text := RadixText([], old(Remaining()));
              token == Radix(text, 16) && Remaining() == old(Remaining())[|text|..]
    {
      hide Value, Whole, WithL;
      var result: nat, curChar, containsInvalidChar, isLong, tooBig := 0, 'x', false, false, false;
      ghost var text: string := [];
      NoneRead(16);
      var next := PeekChar();
      while !isLong && !IsSeparator(next)
        invariant Valid() && next == First(Remaining())
        invariant |text| <= |old(Remaining())| && Remaining() == old(Remaining())[|text|..]
        invariant if text == [] then curChar == 'x' else EndsWith(text, curChar)
        invariant if isLong then RadixText([], old(Remaining())) == text
                  else RadixText([], old(Remaining())) == RadixText(text, Remaining())
        invariant ReadRadix(text, 16, result, tooBig, containsInvalidChar, isLong)
        decreases |Remaining()|, !isLong
      {
        assert Remaining() != [] by { NulSeparates(); }
        curChar := ConsumeChar();
        result, containsInvalidChar, isLong, tooBig := ReadHexChar(text, curChar, result, containsInvalidChar, tooBig);
        text := text + [curChar];
        next := PeekChar();
      }
      token := RadixToken(text, 16, result, tooBig, containsInvalidChar, isLong, curChar);
    }

    /** One character of a binary literal; the accumulator wraps around. */
    method ReadBinaryChar(ghost text: string, c: char, result0: nat, invalid0: bool, tooBig0: bool)
      returns (result: nat, invalid: bool, isLong: bool, tooBig: bool)
      requires ReadRadix(text, 2, result0, tooBig0, invalid0, false)
      ensures ReadRadix(text + [c], 2, result, tooBig, invalid, isLong) && isLong == IsL(c)
    {
      Snoc(text, c, 2);
      hide Value, Whole, WithL;
      result, invalid, isLong, tooBig := result0, invalid0, false, tooBig0;
      if c == '0' || c == '1' {
        var bit := c as int - '0' as int;
        if result > (U64_MAX - bit) / 2 {
          tooBig := true;
        }
        result := (result * 2 + bit) % (U64_MAX + 1);
      } else if c == '_' {
      } else if IsL(c) {
        isLong := true;
      } else {
        invalid := true;
      }
    }

    /** A binary literal whose prefix has been consumed. */
    method NextLitNumberBinary() returns (token: NumberToken)
      requires Valid()
      modifies this
      ensures Valid()
      ensures var text := RadixText([], old(Remaining()));
              token == Radix(text, 2) && Remaining() == old(Remaining())[|text|..]
    {
      hide Value, Whole, WithL;
      var result: nat, curChar, containsInvalidChar, isLong, tooBig := 0, 'b', false, false, false;
      ghost var text: string := [];
      NoneRead(2);
      var next := PeekChar();
      while !isLong && !IsSeparator(next)
        invariant Valid() && next == First(Remaining())
        invariant |text| <= |old(Remaining())| && Remaining() == old(Remaining())[|text|..]
        invariant if text == [] then curChar == 'b' else EndsWith(text, curChar)
        invariant if isLong then RadixText([], old(Remaining())) == text
                  else RadixText([], old(Remaining())) == RadixText(text, Remaining())
        invariant ReadRadix(text, 2, result, tooBig, containsInvalidChar, isLong)
        decreases |Remaining()|, !isLong
      {
        assert Remaining() != [] by { NulSeparates(); }
        curChar := ConsumeChar();
        result, containsInvalidChar, isLong, tooBig := ReadBinaryChar(text, curChar, result, containsInvalidChar, tooBig);
        text := text + [curChar];
        next := PeekChar();
      }
      token := RadixToken(text, 2, result, tooBig, containsInvalidChar, isLong, curChar);
    }

    /** One more digit of a static int; the accumulator wraps around. */
    method AddStaticDigit(ghost text: string, c: char, val0: nat, tooBig0: bool) returns (val: nat, tooBig: bool)
      requires IsDigit(c) && (!tooBig0 ==> val0 == Value(text, 10)) && (tooBig0 <==> Value(text, 10) > I32_MAX)
      ensures (!tooBig ==> val == Value(text + [c], 10)) && (tooBig <==> Value(text + [c], 10) > I32_MAX)
    {
      hide Value;
      SnocStatic(text, c);
      val, tooBig := (val0 * 10 + (c as int - '0' as int)) % (U64_MAX + 1), tooBig0;
      if val > I32_MAX {
        tooBig := true;
      }
    }

    /** A static int whose number sign has been consumed. */
    method NextStaticInt() returns (token: NumberToken)
      requires Valid()
      modifies this
      ensures Valid()
      ensures var negative := First(old(Remaining())) == '-';
              var start := if negative then Behind(old(Remaining())) else old(Remaining());
              var text := StaticText([], start);
              token == StaticInt(text, negative) && Remaining() == start[|text|..]
    {
      hide IsSeparator, DigitOf, IsDigit;
      var next := PeekChar();
      var negative := next == '-';
      if negative {
        next := ConsumeChar();
        next := PeekChar();
      }
      hide Value, NotAllDigits;
      ghost var start, text: string := Remaining(), [];
      assert Value([], 10) == 0 && !NotAllDigits([]) by { NothingRead(); }
      var val: nat, atLeastOneDigit, containsInvalidChar, tooBig := 0, false, false, false;
      while !IsSeparator(next) || next == '-'
        invariant Valid() && next == First(Remaining())
        invariant |text| <= |start| && Remaining() == start[|text|..]
        invariant StaticText([], start) == StaticText(text, Remaining())
        invariant containsInvalidChar <==> NotAllDigits(text)
        invariant !containsInvalidChar ==> (atLeastOneDigit <==> text != [])
        invariant !tooBig ==> val == Value(text, 10)
        invariant tooBig <==> Value(text, 10) > I32_MAX
        decreases |Remaining()|
      {
        assert Remaining() != [] by { NulSeparates(); }
        var c := ConsumeChar();
        ghost var before := text;
        text := text + [c];
        SnocStatic(before, c);
        if IsDigit(c) {
          val, tooBig := AddStaticDigit(before, c, val, tooBig);
          atLeastOneDigit := true;
        } else {
          containsInvalidChar := true;
        }
        next := PeekChar();
      }
      if containsInvalidChar { return Bad(InvalidChar); }
      if !atLeastOneDigit { return Bad(NoDigits); }
      if tooBig { return Bad(IntTooBig); }
      return IntToken(val * if negative then -1 else 1);
    }

    /** A string literal whose opening quote has been consumed. */
    method NextLitStr() returns (token: QuotedToken)
      requires Valid()
      modifies this
      ensures Valid() && (token, Remaining()) == LexStr([], false, old(Remaining()))
    {
      var result, invalidEscape := "", false;
      while true
        invariant Valid() && |Remaining()| <= |old(Remaining())|
        invariant LexStr(result, invalidEscape, Remaining()) == LexStr([], false, old(Remaining()))
        decreases |Remaining()|
      {
        ghost var before := Remaining();
        var c := ConsumeChar();
        if c == NUL || c == RETURN || c == LINE_FEED { return Unterminated; }
        assert before != [];
        if c == '\\' {
          var e := ConsumeChar();
          var unescaped := Unescape(e);
          if unescaped.Some? {
            result := result + [unescaped.value];
          } else {
            invalidEscape := true;
          }
        } else if c == '"' {
          return if invalidEscape then InvalidEscape else StrToken(result);
        } else {
          result := result + [c];
        }
      }
    }

    /** A character literal whose opening quote has been consumed. */
    method NextLitChar() returns (token: QuotedToken)
      requires Valid()
      modifies this
      ensures Valid() && (token, Remaining()) == LexChar(old(Remaining()))
    {
      var tooBig, invalidEscape := false, false;
      var c := ConsumeChar();
      if c == '\'' { return Empty; }
      if c == '\\' {
        var e := ConsumeChar();
        var unescaped := Unescape(e);
        if unescaped.Some? {
          c := unescaped.value;
        } else {
          invalidEscape := true;
        }
      }
      while true
        invariant Valid()
        invariant LexCharEnd(c, tooBig, invalidEscape, Remaining()) == LexChar(old(Remaining()))
        decreases |Remaining()|
      {
        ghost var before := Remaining();
        var d := ConsumeChar();
        if d == NUL || d == RETURN || d == LINE_FEED { return Unterminated; }
        assert before != [];
        if d == '\'' {
          return if tooBig then TooBig else if invalidEscape then InvalidEscape else CharToken(c);
        }
        tooBig := true;
      }
    }
  }

  lemma NoneRead(base: nat)
    ensures ReadRadix([], base, 0, false, false, false) && Value([], base) == 0
  {}

  lemma NothingRead()
    ensures Value([], 10) == 0 && !NotAllDigits([])
  {}

  lemma SnocStatic(text: string, c: char)
    ensures NotAllDigits(text + [c]) <==> NotAllDigits(text) || !IsDigit(c)
    ensures Value(text + [c], 10)
         == if IsDigit(c) then Value(text, 10) * 10 + (c as int - '0' as int) else Value(text, 10)
  {
    Snoc(text, c, 10);
    assert c in text + [c];
    if NotAllDigits(text) {
      var x :| x in text && !IsDigit(x);
      assert x in text + [c];
    }
  }

  lemma NulSeparates()
    ensures IsSeparator(NUL)
  {
    assert SEPARATORS[0] == NUL;
  }

  lemma FirstDigit(c: char)
    requires IsDigit(c) || c == '.'
    ensures Value([c], 10) == (if c == '.' then 0 else c as int - '0' as int)
    ensures Decimals([c]) == 0 && !WithL([c], 10) && (Whole([c], 10) <==> c != '.') && (Fraction([c]) <==> c == '.')
  {
    Snoc([], c, 10);
    SnocFraction([], c);
    assert [] + [c] == [c];
  }

  /** What the variables of the decimal loop know of the text that has been read. */
  ghost predicate ReadDecimal(
    text: string, result: nat, divider: nat, passed: bool, tooBig: bool, invalid: bool, isLong: bool)
  {
    && (passed <==> '.' in text)
    && Exact(text, result, divider, tooBig)
    && (!invalid <==> Whole(text, 10) || Fraction(text) || WithL(text, 10))
    && (isLong ==> text != [] && IsL(text[|text| - 1])) && (!isLong && !invalid ==> Whole(text, 10) || Fraction(text))
  }

  /** The flag says exactly whether the numbers are out of bounds. */
  ghost predicate Exact(text: string, result: nat, divider: nat, tooBig: bool) {
    && (!tooBig ==> result == Value(text, 10) && divider == Pow10(Decimals(text)))
    && (tooBig <==> Value(text, 10) > U64_MAX || Pow10(Decimals(text)) > U64_MAX)
  }

  /** What a character that is no digit changes, and which texts it leaves well formed. */
  lemma Grown(text: string, c: char)
    ensures var more := text + [c];
            && (!IsDigit(c) ==> Value(more, 10) == Value(text, 10) && Decimals(more) == Decimals(text))
            && ('.' in more <==> '.' in text || c == '.')
            && (IsDigit(c) || c == '_' ==> (Whole(more, 10) <==> Whole(text, 10)) && (Fraction(more) <==> Fraction(text))
                                           && !WithL(more, 10))
            && (c == '.' ==> !Whole(more, 10) && !WithL(more, 10) && (Fraction(more) <==> Whole(text, 10)))
            && (IsL(c) ==> !Whole(more, 10) && !Fraction(more) && (WithL(more, 10) <==> Whole(text, 10)))
            && (!IsDigit(c) && c != '_' && c != '.' && !IsL(c) ==> !Whole(more, 10) && !Fraction(more) && !WithL(more, 10))
            && (Fraction(text) ==> '.' in text && !Whole(text, 10)) && (Whole(text, 10) ==> '.' !in text)
            && more[|text|] == c
  {
    Snoc(text, c, 10);
    SnocFraction(text, c);
    FractionHasPoint(text);
  }

  /** The three forms exclude each other. */
  lemma Shapes(text: string)
    ensures Fraction(text) ==> '.' in text && !Whole(text, 10) && !WithL(text, 10)
    ensures Whole(text, 10) ==> '.' !in text && !WithL(text, 10)
    ensures WithL(text, 10) ==> '.' !in text && !EndsWith(text, '_') && !EndsWith(text, '.')
    ensures text != [] && IsL(text[|text| - 1]) ==> !Whole(text, 10) && !Fraction(text)
  {
    if text != [] { assert text[|text| - 1] in text; }
    FractionHasPoint(text);
    LIsNoDigit(text, 10);
    if WithL(text, 10) {
      var init := text[..|text| - 1];
      assert text == init + [text[|text| - 1]];
      FractionHasPoint(init);
    }
  }

  ghost predicate ReadRadix(text: string, base: nat, result: nat, tooBig: bool, invalid: bool, isLong: bool) {
    && (invalid ==> !Whole(text, base) && !WithL(text, base))
    && (!invalid ==>
          && (if isLong then WithL(text, base) else Whole(text, base))
          && (!tooBig ==> result == Value(text, base)) && (tooBig <==> Value(text, base) > U64_MAX))
  }

  /** What the decimal loop makes of its variables. */
  method DecimalToken(
    ghost text: string, result: nat, divider: nat, passed: bool, tooBig: bool, invalid: bool, isLong: bool, curChar: char)
    returns (token: NumberToken)
    requires ReadDecimal(text, result, divider, passed, tooBig, invalid, isLong) && EndsWith(text, curChar)
    ensures token == Decimal(text)
  {
    hide Value, Whole, WithL, Fraction, Decimals, Pow10;
    Shapes(text);
    NoDecimals(text);
    if invalid { return Bad(InvalidChar); }
    if curChar == '_' { return Bad(EndsWithSeparator); }
    if curChar == '.' { return Bad(EndsWithDecimalPoint); }
    if passed {
      return if tooBig then Bad(FloatUnrepresentable) else FloatToken(result, divider);
    }
    if isLong {
      return if tooBig || result > I64_MAX then Bad(LongTooBig) else LongToken(result);
    }
    return if tooBig || result > I32_MAX then Bad(IntTooBig) else IntToken(result);
  }

  lemma {:induction false} NoDecimals(text: string)
    ensures '.' !in text ==> Decimals(text) == 0 && Pow10(Decimals(text)) == 1
    decreases |text|
  {
    if text != [] {
      var init := text[..|text| - 1];
      assert text == init + [text[|text| - 1]];
      NoDecimals(init);
    }
  }

  /** What both loops make of their variables. */
  method RadixToken(
    ghost text: string, ghost base: nat, result: nat, tooBig: bool, invalid: bool, isLong: bool, curChar: char)
    returns (token: NumberToken)
    requires ReadRadix(text, base, result, tooBig, invalid, isLong) && base <= 16
    requires if text == [] then curChar != '_' else EndsWith(text, curChar)
    ensures token == Radix(text, base)
  {
    LIsNoDigit(text, base);
    if invalid { return Bad(InvalidChar); }
    if curChar == '_' { return Bad(EndsWithSeparator); }
    if isLong {
      if tooBig { return Bad(LongTooBig); }
      return LongToken(if result > I64_MAX then result - 0x1_0000_0000_0000_0000 else result);
    }
    if tooBig || result > U32_MAX { return Bad(IntTooBig); }
    return IntToken(if result > I32_MAX then result - 0x1_0000_0000 else result);
  }

  lemma LIsNoDigit(text: string, base: nat)
    requires base <= 16
    ensures !(Whole(text, base) && WithL(text, base))
  {
    if WithL(text, base) { assert text[|text| - 1] in text; }
  }

  // ----- Numbers that are written and read back -----

  function DigitChar(d: nat): char
    requires d < 16
  {
    "0123456789abcdef"[d]
  }

  function Digits(n: nat, base: nat): (r: string)
    requires 2 <= base <= 16
    ensures r != []
    decreases n
  {
    if n < base then [DigitChar(n)] else Digits(n / base, base) + [DigitChar(n % base)]
  }

  lemma DigitIsRight(d: nat, base: nat)
    requires d < base <= 16
    ensures DigitOf(DigitChar(d), base) == Lang.Some(d)
  {}

  lemma {:induction false} DigitsAreRight(n: nat, base: nat)
    requires 2 <= base <= 16
    ensures Value(Digits(n, base), base) == n && Whole(Digits(n, base), base)
    ensures forall c | c in Digits(n, base) :: DigitOf(c, base).Some?
    decreases n
  {
    hide DigitOf, DigitChar, Value;
    if n < base {
      DigitIsRight(n, base);
      Snoc([], DigitChar(n), base);
      assert [] + [DigitChar(n)] == [DigitChar(n)];
      NoneRead(base);
    } else {
      DigitIsRight(n % base, base);
      DigitsAreRight(n / base, base);
      Snoc(Digits(n / base, base), DigitChar(n % base), base);
      DivMod(n, base);
    }
  }

  lemma DivMod(n: nat, base: nat)
    requires base > 0
    ensures n == (n / base) * base + n % base
  {}

  lemma DigitNotSpecial(c: char, base: nat)
    requires DigitOf(c, base).Some? && base <= 16
    ensures !IsSeparator(c) && !IsL(c) && c != '_' && c != '.' && (base == 10 ==> IsDigit(c))
  {
    assert forall s | s in SEPARATORS :: DigitOf(s, 16).None?;
  }

  lemma {:induction false} DigitsTaken(text: string, ds: string, rest: string)
    requires forall c | c in ds :: DigitOf(c, 10).Some?
    ensures DecimalText(text, ds + rest) == DecimalText(text + ds, rest)
    decreases |ds|
  {
    if ds == [] {
      assert ds + rest == rest && text + ds == text;
    } else {
      assert ds[0] in ds && forall c | c in ds[1..] :: c in ds;
      DigitNotSpecial(ds[0], 10);
      assert (ds + rest)[1..] == ds[1..] + rest && text + [ds[0]] + ds[1..] == text + ds;
      DigitsTaken(text + [ds[0]], ds[1..], rest);
    }
  }

  lemma {:induction false} RadixDigitsTaken(text: string, ds: string, rest: string, base: nat)
    requires base <= 16 && forall c | c in ds :: DigitOf(c, base).Some?
    ensures RadixText(text, ds + rest) == RadixText(text + ds, rest)
    decreases |ds|
  {
    if ds == [] {
      assert ds + rest == rest && text + ds == text;
    } else {
      assert ds[0] in ds && forall c | c in ds[1..] :: c in ds;
      DigitNotSpecial(ds[0], base);
      assert (ds + rest)[1..] == ds[1..] + rest && text + [ds[0]] + ds[1..] == text + ds;
      RadixDigitsTaken(text + [ds[0]], ds[1..], rest, base);
    }
  }

  /** A literal can be followed by the end of the input or by a separator that is no decimal point. */
  predicate Stops(rest: string) {
    rest == [] || (IsSeparator(rest[0]) && rest[0] != '.')
  }

  /** The digits of a number of any size are lexed to that number, or rejected exactly when it does not
      fit; with an l behind them the same holds of longs. */
  lemma DecimalRoundTrip(n: nat, rest: string)
    ensures var ds := Digits(n, 10);
            && (Stops(rest) ==> DecimalText([ds[0]], ds[1..] + rest) == ds)
            && Decimal(ds) == (if n <= 0x7fff_ffff then IntToken(n) else Bad(IntTooBig))
            && DecimalText([ds[0]], ds[1..] + ("l" + rest)) == ds + "l"
            && Decimal(ds + "l") == (if n <= 0x7fff_ffff_ffff_ffff then LongToken(n) else Bad(LongTooBig))
  {
    var ds := Digits(n, 10);
    DigitsAreRight(n, 10);
    assert [ds[0]] + ds[1..] == ds && forall c | c in ds[1..] :: c in ds;
    DigitsTaken([ds[0]], ds[1..], rest);
    DigitsTaken([ds[0]], ds[1..], "l" + rest);
    LastDigit(ds, 10);
    LNoSeparator();
    assert '.' !in ds by { if '.' in ds { DigitNotSpecial('.', 10); } }
    assert ds + ['l'] == ds + "l";
    Snoc(ds, 'l', 10);
  }

  lemma LNoSeparator()
    ensures !IsSeparator('l')
  {
    assert forall c | c in SEPARATORS :: c != 'l';
  }

  lemma LastDigit(ds: string, base: nat)
    requires ds != [] && base <= 16 && forall c | c in ds :: DigitOf(c, base).Some?
    ensures !EndsWith(ds, '_')
  {
    assert ds[|ds| - 1] in ds;
    DigitNotSpecial(ds[|ds| - 1], base);
  }

  /** Two's complement: the digits of any int, written as an unsigned number in base 16 or 2, are lexed
      to that int. */
  lemma RadixRoundTrip(i: int, base: nat, rest: string)
    requires (base == 2 || base == 16) && Stops(rest) && -0x8000_0000 <= i < 0x8000_0000
    ensures var ds := Digits(if i < 0 then i + 0x1_0000_0000 else i, base);
            RadixText([], ds + rest) == ds && Radix(ds, base) == IntToken(i)
  {
    hide Digits, Value, Whole, WithL, DigitOf;
    var m := if i < 0 then i + 0x1_0000_0000 else i;
    var ds := Digits(m, base);
    DigitsAreRight(m, base);
    assert [] + ds == ds;
    RadixDigitsTaken([], ds, rest, base);
    LastDigit(ds, base);
  }

  /** The same of longs, with an l behind the digits. */
  lemma RadixLongRoundTrip(l: int, base: nat, rest: string)
    requires (base == 2 || base == 16) && -0x8000_0000_0000_0000 <= l < 0x8000_0000_0000_0000
    ensures var ds := Digits(if l < 0 then l + 0x1_0000_0000_0000_0000 else l, base);
            RadixText([], ds + ("l" + rest)) == ds + "l" && Radix(ds + "l", base) == LongToken(l)
  {
    hide Digits, Value, Whole, WithL, DigitOf, RadixText;
    var n := if l < 0 then l + 0x1_0000_0000_0000_0000 else l;
    var ds := Digits(n, base);
    DigitsAreRight(n, base);
    assert [] + ds == ds && ds + ['l'] == ds + "l";
    RadixDigitsTaken([], ds, "l" + rest, base);
    LTaken(ds, rest, base);
  }

  lemma LTaken(ds: string, rest: string, base: nat)
    requires base <= 16 && Whole(ds, base)
    ensures RadixText(ds, "l" + rest) == ds + ['l'] && WithL(ds + ['l'], base) && !Whole(ds + ['l'], base)
    ensures Value(ds + ['l'], base) == Value(ds, base)
  {
    hide Whole, WithL;
    LIsNoDigitChar(base);
    Snoc(ds, 'l', base);
    LNoSeparator();
    LIsNoDigit(ds + ['l'], base);
  }

  lemma LIsNoDigitChar(base: nat)
    requires base <= 16
    ensures DigitOf('l', base).None?
  {}
}
