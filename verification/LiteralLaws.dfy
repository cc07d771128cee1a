/** What numeric literals mean, said with their characters. */
module LiteralLaws {
  import Lang
  import opened Literals

  predicate AllDigits(text: string) {
    forall c | c in text :: IsDigit(c)
  }

  /** The number written with the digits of n and these behind them. */
  function Joined(n: nat, fs: string): nat {
    n * Pow10(|fs|) + Value(fs, 10)
  }

  /** Digits, a point and digits are lexed to the quotient they spell, or rejected exactly when one of the two
      numbers does not fit into 64 bits. */
  lemma FractionRoundTrip(n: nat, ds: string, fs: string, rest: string)
    requires ds == Digits(n, 10) && fs != [] && AllDigits(fs) && Stops(rest)
    ensures DecimalText([ds[0]], ds[1..] + ("." + (fs + rest))) == ds + "." + fs
    ensures var num, div := Joined(n, fs), Pow10(|fs|);
            Decimal(ds + "." + fs) == if num > 0xffff_ffff_ffff_ffff || div > 0xffff_ffff_ffff_ffff then Bad(FloatUnrepresentable)
                                      else FloatToken(num, div)
  {
    hide Digits, Value, Whole, Pow10, DecimalText, Decimal, AllDigits, DigitOf, Stops;
    DigitsAreRight(n, 10);
    FractionText(ds, fs, rest);
    FractionValue(ds, fs);
  }

  lemma FractionValue(ds: string, fs: string)
    requires ds != [] && Whole(ds, 10) && (forall c | c in ds :: DigitOf(c, 10).Some?) && fs != [] && AllDigits(fs)
    ensures var num, div := Joined(Value(ds, 10), fs), Pow10(|fs|);
            Decimal(ds + "." + fs) == if num > 0xffff_ffff_ffff_ffff || div > 0xffff_ffff_ffff_ffff then Bad(FloatUnrepresentable)
                                      else FloatToken(num, div)
  {
    hide Value, Decimals, Fraction, Whole, Pow10, Decimal, AllDigits, EndsWith, DigitOf;
    DigitsThenPoint(ds);
    FractionGrows(ds + ".", fs);
    LastOfFraction(ds + ".", fs);
    DecimalOfFraction(ds + "." + fs);
  }

  lemma LastOfFraction(text: string, fs: string)
    requires fs != [] && AllDigits(fs)
    ensures !EndsWith(text + fs, '_') && !EndsWith(text + fs, '.')
  {
    assert fs[|fs| - 1] in fs;
  }

  lemma DecimalOfFraction(text: string)
    requires Fraction(text) && !EndsWith(text, '_') && !EndsWith(text, '.')
    ensures var v, d := Value(text, 10), Pow10(Decimals(text));
            Decimal(text) == if v > 0xffff_ffff_ffff_ffff || d > 0xffff_ffff_ffff_ffff then Bad(FloatUnrepresentable) else FloatToken(v, d)
  {
    hide Value, Decimals, Fraction, Whole, WithL, Pow10;
    FractionIsNoInt(text);
  }

  /** How far it reaches. */
  lemma FractionText(ds: string, fs: string, rest: string)
    requires ds != [] && AllDigits(fs) && Stops(rest) && forall c | c in ds :: DigitOf(c, 10).Some?
    ensures DecimalText([ds[0]], ds[1..] + ("." + (fs + rest))) == ds + "." + fs
  {
    assert [ds[0]] + ds[1..] == ds && forall c | c in ds[1..] :: c in ds;
    DigitsTaken([ds[0]], ds[1..], "." + (fs + rest));
    assert ("." + (fs + rest))[1..] == fs + rest && ("." + (fs + rest))[0] == '.';
    assert !IsL('.');
    assert DecimalText(ds, "." + (fs + rest)) == DecimalText(ds + ['.'], fs + rest);
    DigitsTaken(ds + ".", fs, rest);
  }

  lemma DigitsThenPoint(ds: string)
    requires ds != [] && Whole(ds, 10) && forall c | c in ds :: DigitOf(c, 10).Some?
    ensures Fraction(ds + ".") && Decimals(ds + ".") == 0 && Value(ds + ".", 10) == Value(ds, 10)
  {
    assert '.' !in ds by { if '.' in ds { DigitNotSpecial('.', 10); } }
    hide Value, Whole, DigitOf;
    SnocFraction(ds, '.');
    FractionHasPoint(ds);
    NoDecimals(ds);
    assert DigitOf('.', 10).None? by { PointIsNoDigit(); }
    Snoc(ds, '.', 10);
  }

  lemma PointIsNoDigit()
    ensures DigitOf('.', 10).None?
  {}

  /** Digits behind the point. */
  lemma {:induction false} FractionGrows(text: string, fs: string)
    requires Fraction(text) && AllDigits(fs)
    ensures Fraction(text + fs) && Decimals(text + fs) == Decimals(text) + |fs|
    ensures Value(text + fs, 10) == Joined(Value(text, 10), fs)
    decreases |fs|
  {
    hide Fraction, Decimals, Value;
    if fs == [] {
      assert text + fs == text;
      NoneRead(10);
    } else {
      var init, c := fs[..|fs| - 1], fs[|fs| - 1];
      assert c in fs && forall d | d in init :: d in fs;
      assert text + fs == text + init + [c] && fs == init + [c];
      FractionGrows(text, init);
      FractionHasPoint(text);
      SnocFraction(text + init, c);
      Snoc(text + init, c, 10);
      Snoc(init, c, 10);
      TimesTen(Value(text, 10), Pow10(|init|), Value(init, 10), Value([c], 10));
    }
  }

  lemma TimesTen(a: nat, p: nat, b: nat, c: nat)
    ensures (a * p + b) * 10 == a * (10 * p) + b * 10
  {}

  lemma FractionIsNoInt(text: string)
    requires Fraction(text)
    ensures !Whole(text, 10) && !WithL(text, 10)
  {
    FractionHasPoint(text);
  }

  /** Underscores between the digits do not count. */
  lemma {:induction false} UnderscoreIsSkipped(a: string, b: string, base: nat)
    requires base <= 16
    ensures Value(a + "_" + b, base) == Value(a + b, base)
    decreases |b|
  {
    hide Value;
    if b == [] {
      assert a + "_" + b == a + ['_'] && a + b == a;
      Snoc(a, '_', base);
      assert DigitOf('_', base).None?;
    } else {
      var init, c := b[..|b| - 1], b[|b| - 1];
      assert a + "_" + b == a + "_" + init + [c] && a + b == a + init + [c];
      UnderscoreIsSkipped(a, init, base);
      Snoc(a + "_" + init, c, base);
      Snoc(a + init, c, base);
    }
  }

  /** Hexadecimal digits may be written in capitals. */
  lemma CapitalDigits(d: nat)
    requires d < 16
    ensures DigitOf("0123456789ABCDEF"[d], 16) == Lang.Some(d)
  {}

  // ----- Separators -----

  /** A literal ends at a white space character, at NUL, and at every printable ASCII character but letters,
      digits, underscores and apostrophes. */
  lemma SeparatorsAre(c: char)
    ensures IsSeparator(c) <==> EndsLiteral(c as int)
  {
    hide IsSeparator;
    if IsSeparator(c) { ListedEnds(c); }
    if EndsLiteral(c as int) {
      if c as int < 44 { LowIsListed(c); } else if c as int < 64 { MiddleIsListed(c); } else { HighIsListed(c); }
    }
  }

  predicate EndsLiteral(n: int) {
    || n == 0 || n == 9 || n == 10 || n == 13
    || (32 <= n < 127 && n != 39 && n != 95 && !(48 <= n < 58) && !(65 <= n < 91) && !(97 <= n < 123))
  }

  lemma ListedEnds(c: char)
    requires IsSeparator(c)
    ensures EndsLiteral(c as int)
  {
    assert forall s | s in SEPARATORS :: EndsLiteral(s as int);
  }

  lemma LowIsListed(c: char)
    requires EndsLiteral(c as int) && 0 <= c as int < 44
    ensures IsSeparator(c)
  {
    var t := SEPARATORS;
    assert t[0] as int == 0 && t[1] as int == 9 && t[2] as int == 10 && t[3] as int == 13 && t[4] as int == 32 && t[5] as int == 33;
    assert t[6] as int == 34 && t[7] as int == 35 && t[8] as int == 36 && t[9] as int == 37 && t[10] as int == 38 && t[11] as int == 40;
    assert t[12] as int == 41 && t[13] as int == 42 && t[14] as int == 43;
  }

  lemma MiddleIsListed(c: char)
    requires EndsLiteral(c as int) && 44 <= c as int < 64
    ensures IsSeparator(c)
  {
    var t := SEPARATORS;
    assert t[15] as int == 44 && t[16] as int == 45 && t[17] as int == 46 && t[18] as int == 47 && t[19] as int == 58 && t[20] as int == 59;
    assert t[21] as int == 60 && t[22] as int == 61 && t[23] as int == 62 && t[24] as int == 63;
  }

  lemma HighIsListed(c: char)
    requires EndsLiteral(c as int) && 64 <= c as int < 127
    ensures IsSeparator(c)
  {
    var t := SEPARATORS;
    assert t[25] as int == 64 && t[26] as int == 91 && t[27] as int == 92 && t[28] as int == 93 && t[29] as int == 94 && t[30] as int == 96;
    assert t[31] as int == 123 && t[32] as int == 124 && t[33] as int == 125 && t[34] as int == 126;
  }
}
