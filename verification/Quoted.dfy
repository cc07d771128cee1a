/** String and character literals: escaping, and what a quoted text means. */
module Quoted {
  import Lang

  const NUL: char := '\0'
  const ALERT: char := 7 as char
  const BACKSPACE: char := 8 as char
  const TAB: char := 9 as char
  const LINE_FEED: char := 10 as char
  const VERTICAL_TAB: char := 11 as char
  const FORM_FEED: char := 12 as char
  const RETURN: char := 13 as char

  function Escape(c: char): Lang.Option<char> {
    if c == '"' || c == '\'' || c == '\\' then Lang.Some(c)
    else if c == NUL then Lang.Some('0')
    else if c == ALERT then Lang.Some('a')
    else if c == BACKSPACE then Lang.Some('b')
    else if c == FORM_FEED then Lang.Some('f')
    else if c == LINE_FEED then Lang.Some('n')
    else if c == RETURN then Lang.Some('r')
    else if c == TAB then Lang.Some('t')
    else if c == VERTICAL_TAB then Lang.Some('v')
    else Lang.None
  }

  function Unescape(c: char): Lang.Option<char> {
    if c == '"' || c == '\'' || c == '\\' then Lang.Some(c)
    else if c == '0' then Lang.Some(NUL)
    else if c == 'a' then Lang.Some(ALERT)
    else if c == 'b' then Lang.Some(BACKSPACE)
    else if c == 'f' then Lang.Some(FORM_FEED)
    else if c == 'n' then Lang.Some(LINE_FEED)
    else if c == 'r' then Lang.Some(RETURN)
    else if c == 't' then Lang.Some(TAB)
    else if c == 'v' then Lang.Some(VERTICAL_TAB)
    else Lang.None
  }

  function EscapedChar(c: char): string {
    if Escape(c).Some? then ['\\', Escape(c).value] else [c]
  }

  function Escaped(s: string): string {
    if s == [] then [] else EscapedChar(s[0]) + Escaped(s[1..])
  }

  method EscapeString(str: string) returns (result: string)
    ensures result == Escaped(str)
  {
    hide Escaped, Escape;
    result := [];
    EscapeStart(str);
    for i := 0 to |str|
      invariant Escaped(str) == result + Escaped(str[i..])
    {
      EscapeStep(str, i, result);
      var esc := Escape(str[i]);
      if esc.Some? {
        result := result + ['\\'];
        result := result + [esc.value];
      } else {
        result := result + [str[i]];
      }
    }
    assert result + [] == result;
  }

  lemma EscapeStart(str: string)
    ensures Escaped(str) == [] + Escaped(str[0..]) && Escaped(str[|str|..]) == []
  {
    assert str[0..] == str && [] + Escaped(str) == Escaped(str);
  }

  lemma EscapeStep(str: string, i: nat, before: string)
    requires i < |str|
    ensures before + Escaped(str[i..])
         == (if Escape(str[i]).Some? then before + ['\\'] + [Escape(str[i]).value] else before + [str[i]])
            + Escaped(str[i + 1..])
  {
    assert str[i..][0] == str[i] && str[i..][1..] == str[i + 1..];
    hide Escape;
    var more := Escaped(str[i + 1..]);
    if Escape(str[i]).Some? {
      var e := Escape(str[i]).value;
      assert before + (['\\', e] + more) == before + ['\\'] + [e] + more;
    } else {
      assert before + ([str[i]] + more) == before + [str[i]] + more;
    }
  }

  // ----- What the lexer makes of a quoted text -----

  datatype QuotedToken =
    StrToken(str: string) | CharToken(c: char) | Unterminated | InvalidEscape | Empty | TooBig

  function First(ts: string): char {
    if ts == [] then NUL else ts[0]
  }

  function Behind(ts: string): string {
    if ts == [] then [] else ts[1..]
  }

  predicate EndsLine(c: char) {
    c == NUL || c == RETURN || c == LINE_FEED
  }

  /** The string literal whose opening quote has been read, and what follows it; `acc` has been
      collected and `bad` says that an escape was wrong. */
  function LexStr(acc: string, bad: bool, ts: string): (r: (QuotedToken, string))
    ensures |r.1| <= |ts| && r.1 == ts[|ts| - |r.1|..]
    decreases |ts|
  {
    var c, rest := First(ts), Behind(ts);
    if EndsLine(c) then (Unterminated, rest)
    else if c == '\\' then
      var u := Unescape(First(rest));
      if u.Some? then LexStr(acc + [u.value], bad, Behind(rest)) else LexStr(acc, true, Behind(rest))
    else if c == '"' then (if bad then InvalidEscape else StrToken(acc), rest)
    else LexStr(acc + [c], bad, rest)
  }

  /** The rest of a character literal. */
  function LexCharEnd(c: char, tooBig: bool, bad: bool, ts: string): (r: (QuotedToken, string))
    ensures |r.1| <= |ts| && r.1 == ts[|ts| - |r.1|..]
    decreases |ts|
  {
    var d, rest := First(ts), Behind(ts);
    if EndsLine(d) then (Unterminated, rest)
    else if d == '\'' then (if tooBig then TooBig else if bad then InvalidEscape else CharToken(c), rest)
    else LexCharEnd(c, true, bad, rest)
  }

  /** The character literal whose opening quote has been read. */
  function LexChar(ts: string): (r: (QuotedToken, string))
    ensures |r.1| <= |ts| && r.1 == ts[|ts| - |r.1|..]
  {
    var c, rest := First(ts), Behind(ts);
    if c == '\'' then (Empty, rest)
    else if c == '\\' then
      var u := Unescape(First(rest));
      LexCharEnd(if u.Some? then u.value else c, false, u.None?, Behind(rest))
    else LexCharEnd(c, false, false, rest)
  }

  // ----- Which texts mean which strings -----

  /** body is one way to write s between quotes. */
  predicate Spells(body: string, s: string)
    decreases |body|
  {
    if body == [] then s == []
    else if body[0] == '\\' then
      |body| >= 2 && s != [] && Unescape(body[1]) == Lang.Some(s[0]) && Spells(body[2..], s[1..])
    else
      !EndsLine(body[0]) && body[0] != '"' && s != [] && body[0] == s[0] && Spells(body[1..], s[1..])
  }

  lemma UnescapeInverts(c: char)
    ensures Escape(c).Some? ==> Unescape(Escape(c).value) == Lang.Some(c)
    ensures Unescape(c).Some? ==> Escape(Unescape(c).value) == Lang.Some(c)
    ensures Escape(c).None? ==> c != '"' && c != '\'' && c != '\\' && !EndsLine(c)
  {}

  lemma {:induction false} EscapedSpells(s: string)
    ensures Spells(Escaped(s), s)
  {
    if s != [] {
      EscapedSpells(s[1..]);
      UnescapeInverts(s[0]);
      var more := Escaped(s[1..]);
      if Escape(s[0]).Some? {
        assert Escaped(s)[0] == '\\' && Escaped(s)[1] == Escape(s[0]).value && Escaped(s)[2..] == more;
      } else {
        assert Escaped(s)[0] == s[0] && Escaped(s)[1..] == more;
      }
    }
  }

  /** A text that spells s, with the closing quote behind it, is lexed to s. */
  lemma {:induction false} SpelledIsLexed(acc: string, body: string, s: string, rest: string)
    requires Spells(body, s)
    ensures LexStr(acc, false, body + ['"'] + rest) == (StrToken(acc + s), rest)
    decreases |body|
  {
    var ts := body + ['"'] + rest;
    if body == [] {
      assert ts[0] == '"' && ts[1..] == rest && acc + s == acc;
    } else {
      assert acc + [s[0]] + s[1..] == acc + s;
      if body[0] == '\\' {
        assert ts[0] == '\\' && ts[1..][0] == body[1] && ts[1..][1..] == body[2..] + ['"'] + rest;
        SpelledIsLexed(acc + [s[0]], body[2..], s[1..], rest);
      } else {
        assert ts[0] == body[0] && ts[1..] == body[1..] + ['"'] + rest;
        SpelledIsLexed(acc + [s[0]], body[1..], s[1..], rest);
      }
    }
  }

  lemma {:induction false} BadIsNoString(acc: string, ts: string)
    ensures !LexStr(acc, true, ts).0.StrToken?
    decreases |ts|
  {
    hide Unescape;
    var c, rest := First(ts), Behind(ts);
    if c == '\\' {
      var u := Unescape(First(rest));
      BadIsNoString(if u.Some? then acc + [u.value] else acc, Behind(rest));
    } else if !EndsLine(c) && c != '"' {
      BadIsNoString(acc + [c], rest);
    }
  }

  lemma SpellsMore(head: string, c: char, body: string, s: string, rest: string, acc: string)
    requires Spells(body, s)
    requires if |head| == 2 then head[0] == '\\' && Unescape(head[1]) == Lang.Some(c)
             else head == [c] && !EndsLine(c) && c != '"' && c != '\\'
    ensures Spells(head + body, [c] + s) && acc + [c] + s == acc + ([c] + s)
    ensures head + (body + ['"'] + rest) == head + body + ['"'] + rest
  {
    hide Unescape, EndsLine;
    assert (head + body)[|head|..] == body && ([c] + s)[1..] == s;
  }

  /** What was read when a string comes out. */
  lemma {:induction false} LexedIsSpelled(acc: string, ts: string) returns (body: string, s: string)
    requires LexStr(acc, false, ts).0.StrToken?
    ensures var (t, rest) := LexStr(acc, false, ts);
            t == StrToken(acc + s) && ts == body + ['"'] + rest && Spells(body, s)
    decreases |ts|
  {
    hide Unescape, Spells;
    var c, rest, left := First(ts), Behind(ts), LexStr(acc, false, ts).1;
    if c == '"' {
      body, s := [], [];
      assert acc + s == acc && body + ['"'] + rest == ts && Spells([], []) by { NothingSpelled(); }
    } else if c == '\\' {
      var u := Unescape(First(rest));
      BadIsNoString(acc, Behind(rest));
      NulIsNoEscape();
      body, s := LexedIsSpelled(acc + [u.value], Behind(rest));
      SpellsMore([c, rest[0]], u.value, body, s, left, acc);
      body, s := [c, rest[0]] + body, [u.value] + s;
    } else {
      body, s := LexedIsSpelled(acc + [c], rest);
      SpellsMore([c], c, body, s, left, acc);
      body, s := [c] + body, [c] + s;
    }
  }

  lemma NothingSpelled()
    ensures Spells([], [])
  {}

  lemma NulIsNoEscape()
    ensures Unescape(NUL).None?
  {}

  /** A string literal is lexed to s exactly when its text spells s. */
  lemma StrIsExact(ts: string, s: string, rest: string)
    ensures LexStr([], false, ts) == (StrToken(s), rest) <==> exists body :: ts == body + ['"'] + rest && Spells(body, s)
  {
    if LexStr([], false, ts) == (StrToken(s), rest) {
      var body, s1 := LexedIsSpelled([], ts);
      assert [] + s1 == s1;
    }
    if body :| ts == body + ['"'] + rest && Spells(body, s) {
      SpelledIsLexed([], body, s, rest);
      assert [] + s == s;
    }
  }

  /** Every string, escaped and quoted, is lexed to itself, up to the closing quote. */
  lemma StringRoundTrip(s: string, rest: string)
    ensures LexStr([], false, Escaped(s) + ['"'] + rest) == (StrToken(s), rest)
  {
    EscapedSpells(s);
    StrIsExact(Escaped(s) + ['"'] + rest, s, rest);
  }

  /** Only one text means a character, apart from the escapes that could be left out. */
  lemma CharIsExact(ts: string, c: char, rest: string)
    ensures LexChar(ts) == (CharToken(c), rest)
       <==> (ts == [c, '\''] + rest && c != '\'' && c != '\\')
            || (exists e :: ts == ['\\', e, '\''] + rest && Unescape(e) == Lang.Some(c))
  {
    if LexChar(ts) == (CharToken(c), rest) {
      CharEnds(ts, c, rest);
    }
    if ts == [c, '\''] + rest && c != '\'' && c != '\\' {
      assert ts[1..][0] == '\'' && ts[1..][1..] == rest;
    }
    if e :| ts == ['\\', e, '\''] + rest && Unescape(e) == Lang.Some(c) {
      assert ts[1..][0] == e && ts[1..][1..][0] == '\'' && ts[1..][1..][1..] == rest;
    }
  }

  /** A second character makes the literal too big for good. */
  lemma {:induction false} EndOnly(ts: string)
    ensures forall c, bad :: !LexCharEnd(c, true, bad, ts).0.CharToken?
    decreases |ts|
  {
    if ts != [] { EndOnly(ts[1..]); }
  }

  lemma CharEnds(ts: string, c: char, rest: string)
    requires LexChar(ts) == (CharToken(c), rest)
    ensures (ts == [c, '\''] + rest && c != '\'' && c != '\\')
            || (exists e :: ts == ['\\', e, '\''] + rest && Unescape(e) == Lang.Some(c))
  {
    if First(ts) == '\\' {
      var e := First(Behind(ts));
      EndExact(c, Unescape(e).None?, Behind(Behind(ts)));
      EndExact(if Unescape(e).Some? then Unescape(e).value else '\\', Unescape(e).None?, Behind(Behind(ts)));
      assert ts == ['\\', e, '\''] + rest;
    } else {
      EndExact(First(ts), false, Behind(ts));
      assert ts == [c, '\''] + rest;
    }
  }

  /** A character token comes only of a closing quote at once. */
  lemma EndExact(c: char, bad: bool, ts: string)
    ensures LexCharEnd(c, false, bad, ts).0.CharToken? ==>
              !bad && ts != [] && ts[0] == '\'' && LexCharEnd(c, false, bad, ts) == (CharToken(c), ts[1..])
  {
    EndOnly(Behind(ts));
    if !EndsLine(First(ts)) && First(ts) != '\'' {
      assert LexCharEnd(c, false, bad, ts) == LexCharEnd(c, true, bad, Behind(ts));
    }
  }

  /** Every character, escaped and quoted, is lexed to itself. */
  lemma CharRoundTrip(c: char, rest: string)
    ensures LexChar(EscapedChar(c) + ['\''] + rest) == (CharToken(c), rest)
  {
    UnescapeInverts(c);
    var ts := EscapedChar(c) + ['\''] + rest;
    if Escape(c).Some? {
      assert ts == ['\\', Escape(c).value, '\''] + rest;
    } else {
      assert ts == [c, '\''] + rest;
    }
    CharIsExact(ts, c, rest);
  }

  /** The escapes by the codes of the characters they stand for, and no others. */
  lemma KnownEscapes(c: char)
    ensures Unescape('0') == Lang.Some(0 as char) && Unescape('a') == Lang.Some(7 as char)
    ensures Unescape('b') == Lang.Some(8 as char) && Unescape('t') == Lang.Some(9 as char)
    ensures Unescape('n') == Lang.Some(10 as char) && Unescape('v') == Lang.Some(11 as char)
    ensures Unescape('f') == Lang.Some(12 as char) && Unescape('r') == Lang.Some(13 as char)
    ensures Unescape(c).Some? && c != '0' && c != 'a' && c != 'b' && c != 't' && c != 'n' && c != 'v' && c != 'f' && c != 'r'
       ==> Unescape(c).value == c
    ensures Unescape(c).Some? <==> c in "0abtnvfr\"'\\"
  {
    assert c in "0abtnvfr\"'\\" ==>
        c == '0' || c == 'a' || c == 'b' || c == 't' || c == 'n' || c == 'v' || c == 'f' || c == 'r' || Escape(c) == Lang.Some(c);
    var all := "0abtnvfr\"'\\";
    assert all[0] == '0' && all[1] == 'a' && all[2] == 'b' && all[3] == 't' && all[4] == 'n' && all[5] == 'v';
    assert all[6] == 'f' && all[7] == 'r' && all[8] == '"' && all[9] == '\'' && all[10] == '\\';
  }
}
