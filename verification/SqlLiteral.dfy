/** String constants for statements that cannot take a parameter, read back by the
    SQL lexer (PostgreSQL documentation, sections 4.1.2.1 and 4.1.2.2). */
module SqlLiteral {
  import opened Common

  const QUOTE: char := '\''
  const BACKSLASH: char := '\\'
  const NUL: char := '\0'

  /** strings.ReplaceAll(s, c, cc). */
  function Doubled(s: string, c: char): (r: string)
    ensures |r| >= |s|
  {
    if |s| == 0 then ""
    else (if s[0] == c then [c, c] else [s[0]]) + Doubled(s[1..], c)
  }

  function Literal(s: string): (r: string)
  {
    var quoted := Doubled(s, QUOTE);
    if BACKSLASH in quoted then " E'" + Doubled(quoted, BACKSLASH) + "'"
    else "'" + quoted + "'"
  }

  // ---- the reader ---------------------------------------------------------

  predicate IsSpace(c: char)
  {
    c == ' ' || c == '\t' || c == '\n' || c == '\r'
  }

  /** Text after leading white space, and whether a newline was crossed. */
  function SkipSpace(s: string): (r: (string, bool))
    ensures |r.0| <= |s|
  {
    if |s| > 0 && IsSpace(s[0]) then
      var (rest, newline) := SkipSpace(s[1..]);
      (rest, newline || s[0] == '\n')
    else (s, false)
  }

  /** Two constants separated by white space with a newline in it are one. */
  predicate Continues(s: string)
  {
    var (rest, newline) := SkipSpace(s);
    newline && |rest| > 0 && rest[0] == QUOTE
  }

  /** The character an escape sequence of one letter stands for. The numeric
      escapes are refused: this reader does not need them. */
  function Unescape(c: char): Option<char>
  {
    if c == 'b' then Some(8 as char)
    else if c == 'f' then Some(12 as char)
    else if c == 'n' then Some('\n')
    else if c == 'r' then Some('\r')
    else if c == 't' then Some('\t')
    else if '0' <= c <= '7' || c == 'x' || c == 'u' || c == 'U' || c == NUL then None
    else Some(c)
  }

  /** Reads the body of a constant up to and including its closing quote. */
  function ReadBody(s: string, escapes: bool): (r: Option<(string, string)>)
    ensures r.Some? ==> |r.value.1| < |s|
    decreases |s|
  {
    if |s| == 0 || s[0] == NUL then None
    else if s[0] == QUOTE then
      if |s| > 1 && s[1] == QUOTE then Prepend(QUOTE, ReadBody(s[2..], escapes))
      else if Continues(s[1..]) then
        var rest := SkipSpace(s[1..]).0;
        ReadBody(rest[1..], escapes)
      else Some(("", s[1..]))
    else if escapes && s[0] == BACKSLASH then
      if |s| == 1 || Unescape(s[1]).None? then None
      else Prepend(Unescape(s[1]).value, ReadBody(s[2..], escapes))
    else Prepend(s[0], ReadBody(s[1..], escapes))
  }

  function Prepend(c: char, r: Option<(string, string)>): Option<(string, string)>
  {
    if r.None? then None else Some(([c] + r.value.0, r.value.1))
  }

  /** Reads one string constant: its value and the text after it. */
  function ReadConstant(s: string, standardConforming: bool): Option<(string, string)>
  {
    var text := SkipSpace(s).0;
    if |text| > 1 && (text[0] == 'E' || text[0] == 'e') && text[1] == QUOTE then ReadBody(text[2..], true)
    else if |text| > 0 && text[0] == QUOTE then ReadBody(text[1..], !standardConforming)
    else None
  }

  /** What may follow a constant without becoming part of it. */
  predicate Separate(rest: string)
  {
    !(|rest| > 0 && rest[0] == QUOTE) && !Continues(rest)
  }

  // ---- exactness ----------------------------------------------------------

  /** The body written between the quotes, in either form. */
  function Body(s: string, escapes: bool): string
  {
    if escapes then Doubled(Doubled(s, QUOTE), BACKSLASH) else Doubled(s, QUOTE)
  }

  /** What the body of one character is. */
  function BodyChar(c: char, escapes: bool): string
  {
    if c == QUOTE then [QUOTE, QUOTE]
    else if escapes && c == BACKSLASH then [BACKSLASH, BACKSLASH]
    else [c]
  }

  lemma {:induction false} DoubledAppend(a: string, b: string, c: char)
    ensures Doubled(a + b, c) == Doubled(a, c) + Doubled(b, c)
  {
    if |a| == 0 {
      assert a + b == b;
    } else {
      assert (a + b)[1..] == a[1..] + b;
      DoubledAppend(a[1..], b, c);
    }
  }

  lemma BodyStep(s: string, escapes: bool)
    requires |s| > 0
    ensures Body(s, escapes) == BodyChar(s[0], escapes) + Body(s[1..], escapes)
  {
    if escapes {
      var head := if s[0] == QUOTE then [QUOTE, QUOTE] else [s[0]];
      DoubledAppend(head, Doubled(s[1..], QUOTE), BACKSLASH);
      assert Doubled([s[0]][1..], BACKSLASH) == "";
      if s[0] == QUOTE {
        assert head[1..] == [QUOTE] && head[1..][1..] == "";
        assert Doubled([QUOTE], BACKSLASH) == [QUOTE];
        assert Doubled(head, BACKSLASH) == [QUOTE, QUOTE];
      } else {
        assert Doubled(head, BACKSLASH) == BodyChar(s[0], escapes);
      }
    }
  }

  /** A body with the text that follows it in the statement. */
  function Enclosed(s: string, rest: string, escapes: bool): string
  {
    Body(s, escapes) + ("'" + rest)
  }

  lemma EnclosedStep(s: string, rest: string, escapes: bool)
    requires |s| > 0
    ensures Enclosed(s, rest, escapes) == BodyChar(s[0], escapes) + Enclosed(s[1..], rest, escapes)
  {
    BodyStep(s, escapes);
  }

  lemma ReadsEmptyBody(rest: string, escapes: bool)
    requires Separate(rest)
    ensures ReadBody(Enclosed("", rest, escapes), escapes) == Some(("", rest))
  {
    ReadClosingQuote(rest, escapes);
    assert Enclosed("", rest, escapes) == "'" + rest;
  }

  /** The reader undoes the writer, character by character. */
  lemma {:induction false} ReadsBody(s: string, rest: string, escapes: bool)
    requires NUL !in s && Separate(rest)
    ensures ReadBody(Enclosed(s, rest, escapes), escapes) == Some((s, rest))
    decreases |s|
  {
    if |s| == 0 {
      ReadsEmptyBody(rest, escapes);
    } else {
      ReadsBody(s[1..], rest, escapes);
      ReadsBodyOneMore(s, rest, escapes);
    }
  }

  lemma ReadsBodyOneMore(s: string, rest: string, escapes: bool)
    requires |s| > 0 && s[0] != NUL
    requires ReadBody(Enclosed(s[1..], rest, escapes), escapes) == Some((s[1..], rest))
    ensures ReadBody(Enclosed(s, rest, escapes), escapes) == Some((s, rest))
  {
    EnclosedStep(s, rest, escapes);
    ReadsOneMore(s[0], s[1..], Enclosed(s[1..], rest, escapes), rest, escapes);
    assert s == [s[0]] + s[1..];
  }

  lemma ReadsOneMore(c: char, s: string, tail: string, rest: string, escapes: bool)
    requires c != NUL && ReadBody(tail, escapes) == Some((s, rest))
    ensures ReadBody(BodyChar(c, escapes) + tail, escapes) == Some(([c] + s, rest))
  {
    ReadStep(c, tail, escapes);
  }

  lemma ReadClosingQuote(rest: string, escapes: bool)
    requires Separate(rest)
    ensures ReadBody("'" + rest, escapes) == Some(("", rest))
  {
    assert ("'" + rest)[1..] == rest;
  }

  lemma ReadStep(c: char, tail: string, escapes: bool)
    requires c != NUL
    ensures ReadBody(BodyChar(c, escapes) + tail, escapes) == Prepend(c, ReadBody(tail, escapes))
  {
    var text := BodyChar(c, escapes) + tail;
    if c == QUOTE || (escapes && c == BACKSLASH) {
      assert text[2..] == tail;
    } else {
      assert text[1..] == tail;
    }
  }

  lemma {:induction false} DoubledKeeps(s: string, c: char, d: char)
    ensures d in Doubled(s, c) <==> d in s
  {
    if |s| > 0 {
      DoubledKeeps(s[1..], c, d);
      assert s == [s[0]] + s[1..];
    }
  }

  /** Without a backslash the two reading modes agree on a body. */
  lemma {:induction false} BodyPlain(s: string)
    requires BACKSLASH !in s
    ensures Body(s, true) == Body(s, false)
  {
    if |s| > 0 {
      BodyStep(s, true);
      BodyStep(s, false);
      assert s == [s[0]] + s[1..];
      BodyPlain(s[1..]);
    }
  }

  /** The reader enters the body in the mode it was written for; a body without a
      backslash reads the same in both. */
  lemma LiteralOpens(s: string, rest: string, standardConforming: bool)
    ensures exists escapes :: ReadConstant(Literal(s) + rest, standardConforming) ==
                              ReadBody(Enclosed(s, rest, escapes), escapes)
  {
    DoubledKeeps(s, QUOTE, BACKSLASH);
    LiteralShape(s, rest);
    if BACKSLASH in s {
      EscapeFormOpens(Enclosed(s, rest, true), standardConforming);
    } else {
      BodyPlain(s);
      PlainFormOpens(Enclosed(s, rest, !standardConforming), standardConforming);
    }
  }

  lemma LiteralShape(s: string, rest: string)
    ensures BACKSLASH in s ==> Literal(s) + rest == " E'" + Enclosed(s, rest, true)
    ensures BACKSLASH !in s ==> Literal(s) + rest == "'" + Enclosed(s, rest, false)
  {
    DoubledKeeps(s, QUOTE, BACKSLASH);
    var quoted := Doubled(s, QUOTE);
    if BACKSLASH in s {
      Bracketed(" E'", Doubled(quoted, BACKSLASH), rest);
    } else {
      Bracketed("'", quoted, rest);
    }
  }

  lemma Bracketed(open: string, body: string, rest: string)
    ensures open + body + "'" + rest == open + (body + ("'" + rest))
  {
  }

  lemma EscapeFormOpens(text: string, standardConforming: bool)
    ensures ReadConstant(" E'" + text, standardConforming) == ReadBody(text, true)
  {
    var after := "E'" + text;
    assert " E'" + text == " " + after;
    SkipOneSpace(after);
    assert after[2..] == text;
  }

  lemma SkipOneSpace(after: string)
    requires |after| > 0 && !IsSpace(after[0])
    ensures SkipSpace(" " + after).0 == after
  {
    assert (" " + after)[1..] == after;
    assert SkipSpace(after) == (after, false);
  }

  lemma PlainFormOpens(text: string, standardConforming: bool)
    ensures ReadConstant("'" + text, standardConforming) == ReadBody(text, !standardConforming)
  {
    assert ("'" + text)[1..] == text;
  }

  /** Every constant reads back as the string it was written for, and nothing after
      it is consumed, under either setting of standard_conforming_strings. */
  lemma LiteralReadsBack(s: string, rest: string, standardConforming: bool)
    requires NUL !in s && Separate(rest)
    ensures ReadConstant(Literal(s) + rest, standardConforming) == Some((s, rest))
  {
    LiteralOpens(s, rest, standardConforming);
    var escapes :| ReadConstant(Literal(s) + rest, standardConforming) ==
                   ReadBody(Enclosed(s, rest, escapes), escapes);
    ReadsBody(s, rest, escapes);
  }

  lemma {:induction false} ReadBodyRefusesNul(s: string, rest: string, escapes: bool)
    requires NUL in s
    ensures ReadBody(Enclosed(s, rest, escapes), escapes) == None
    decreases |s|
  {
    EnclosedStep(s, rest, escapes);
    var tail := Enclosed(s[1..], rest, escapes);
    if s[0] == NUL {
      assert (BodyChar(NUL, escapes) + tail)[0] == NUL;
    } else {
      assert s == [s[0]] + s[1..];
      ReadBodyRefusesNul(s[1..], rest, escapes);
      RefusesOneMore(s[0], tail, escapes);
    }
  }

  lemma RefusesOneMore(c: char, tail: string, escapes: bool)
    requires c != NUL && ReadBody(tail, escapes) == None
    ensures ReadBody(BodyChar(c, escapes) + tail, escapes) == None
  {
    ReadStep(c, tail, escapes);
  }

  /** The strings that have a constant are exactly the ones without a NUL. */
  lemma LiteralExactly(s: string, standardConforming: bool)
    ensures ReadConstant(Literal(s), standardConforming) == Some((s, "")) <==> NUL !in s
  {
    assert Literal(s) + "" == Literal(s);
    if NUL !in s {
      LiteralReadsBack(s, "", standardConforming);
    } else {
      LiteralOpens(s, "", standardConforming);
      var escapes :| ReadConstant(Literal(s) + "", standardConforming) ==
                     ReadBody(Enclosed(s, "", escapes), escapes);
      ReadBodyRefusesNul(s, "", escapes);
    }
  }

  /** Two different strings never share a constant. */
  lemma LiteralInjective(a: string, b: string)
    requires NUL !in a && NUL !in b && Literal(a) == Literal(b)
    ensures a == b
  {
    LiteralExactly(a, true);
    LiteralExactly(b, true);
  }
}
