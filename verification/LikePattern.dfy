/** LIKE patterns: an escaped search term matches itself and nothing else. */
module LikePattern {

  const ESCAPE: char := '\\'

  predicate IsMeta(c: char)
  {
    c == ESCAPE || c == '%' || c == '_'
  }

  /** One left-to-right pass that puts the escape character before each
      metacharacter, the escape character included. */
  function EscapeLikePattern(s: string): (escaped: string)
  {
    if |s| == 0 then ""
    else (if IsMeta(s[0]) then [ESCAPE, s[0]] else [s[0]]) + EscapeLikePattern(s[1..])
  }

  /** PostgreSQL's LIKE with its default escape character. A pattern that ends in
      the escape character is an error there and matches nothing here. */
  predicate Like(text: string, pattern: string)
    decreases |pattern|, |text|
  {
    if |pattern| == 0 then |text| == 0
    else if pattern[0] == ESCAPE then
      |pattern| >= 2 && |text| > 0 && text[0] == pattern[1] && Like(text[1..], pattern[2..])
    else if pattern[0] == '%' then
      Like(text, pattern[1..]) || (|text| > 0 && Like(text[1..], pattern))
    else
      |text| > 0 && (pattern[0] == '_' || text[0] == pattern[0]) && Like(text[1..], pattern[1..])
  }

  predicate StartsWith(text: string, s: string)
  {
    |s| <= |text| && text[..|s|] == s
  }

  predicate Contains(text: string, s: string)
  {
    exists i :: 0 <= i <= |text| && StartsWith(text[i..], s)
  }

  /** One escaped character at the head of a pattern consumes that character. */
  lemma EscapedCharMatches(text: string, c: char, tail: string)
    ensures Like(text, (if IsMeta(c) then [ESCAPE, c] else [c]) + tail) <==>
            |text| > 0 && text[0] == c && Like(text[1..], tail)
  {
    if IsMeta(c) {
      var p := [ESCAPE, c] + tail;
      assert p[2..] == tail;
    } else {
      var p := [c] + tail;
      assert p[1..] == tail;
    }
  }

  lemma StartsWithStep(text: string, s: string)
    requires |s| > 0 && |text| > 0
    ensures StartsWith(text, s) <==> text[0] == s[0] && StartsWith(text[1..], s[1..])
    ensures |s| <= |text| ==> text[|s|..] == text[1..][|s| - 1..]
  {
    if |s| <= |text| {
      assert text[..|s|] == [text[0]] + text[1..][..|s| - 1];
      assert s == [s[0]] + s[1..];
      assert [text[0]] + text[1..][..|s| - 1] == [s[0]] + s[1..] ==>
        text[1..][..|s| - 1] == ([text[0]] + text[1..][..|s| - 1])[1..] == ([s[0]] + s[1..])[1..] == s[1..];
    }
  }

  /** An escaped term at the head of a pattern consumes exactly that term. */
  lemma {:induction false} EscapedMatchesLiterally(text: string, s: string, rest: string)
    ensures Like(text, EscapeLikePattern(s) + rest) <==> StartsWith(text, s) && Like(text[|s|..], rest)
  {
    if |s| == 0 {
      assert EscapeLikePattern(s) + rest == rest && text[0..] == text;
    } else {
      var head := if IsMeta(s[0]) then [ESCAPE, s[0]] else [s[0]];
      assert EscapeLikePattern(s) + rest == head + (EscapeLikePattern(s[1..]) + rest);
      EscapedCharMatches(text, s[0], EscapeLikePattern(s[1..]) + rest);
      if |text| > 0 {
        EscapedMatchesLiterally(text[1..], s[1..], rest);
        StartsWithStep(text, s);
      }
    }
  }

  /** A leading wildcard matches any prefix. */
  lemma {:induction false} PercentMatchesAnyPrefix(text: string, rest: string)
    ensures Like(text, "%" + rest) <==> exists i :: 0 <= i <= |text| && Like(text[i..], rest)
    decreases |text|
  {
    var p := "%" + rest;
    assert p[1..] == rest;
    assert text[0..] == text;
    if |text| > 0 {
      PercentMatchesAnyPrefix(text[1..], rest);
      if i :| 0 <= i <= |text| && Like(text[i..], rest) {
        if i > 0 {
          assert text[1..][i - 1..] == text[i..];
        }
      }
      if Like(text[1..], p) {
        var i :| 0 <= i <= |text[1..]| && Like(text[1..][i..], rest);
        assert text[i + 1..] == text[1..][i..];
      }
    }
  }

  /** The pattern every search term is turned into is a substring test, for every
      term and every text. */
  lemma SubstringPatternIsContains(text: string, s: string)
    ensures Like(text, "%" + EscapeLikePattern(s) + "%") <==> Contains(text, s)
  {
    var inner := EscapeLikePattern(s) + "%";
    assert "%" + EscapeLikePattern(s) + "%" == "%" + inner;
    PercentMatchesAnyPrefix(text, inner);
    forall i | 0 <= i <= |text|
      ensures Like(text[i..], inner) <==> StartsWith(text[i..], s)
    {
      EscapedMatchesLiterally(text[i..], s, "%");
      if StartsWith(text[i..], s) {
        PercentMatchesEverything(text[i..][|s|..]);
      }
    }
  }

  lemma PercentMatchesEverything(text: string)
    ensures Like(text, "%")
  {
    PercentMatchesAnyPrefix(text, "");
    assert text[|text|..] == "";
    assert "%" + "" == "%";
  }

  // ---- case folding --------------------------------------------------------

  /** A locale's folding, one character for one: the characters it lists change, and
      none of them to or from a metacharacter. */
  type Folding = m: map<char, char> | FixesMeta(m) witness map[]

  predicate FixesMeta(m: map<char, char>)
  {
    forall c :: c in m ==> !IsMeta(c) && !IsMeta(m[c])
  }

  const ASCII: Folding := map c: char | 'A' <= c <= 'Z' :: ((c as int) + 32) as char

  function FoldChar(folding: Folding, c: char): (folded: char)
    ensures IsMeta(folded) <==> IsMeta(c)
    ensures IsMeta(c) ==> folded == c
  {
    if c in folding then folding[c] else c
  }

  function Fold(folding: Folding, s: string): (folded: string)
    ensures |folded| == |s|
    ensures forall i :: 0 <= i < |s| ==> folded[i] == FoldChar(folding, s[i])
  {
    seq(|s|, i requires 0 <= i < |s| => FoldChar(folding, s[i]))
  }

  /** The same text, letters of the ASCII alphabet read in either case. */
  predicate SameUpToCase(a: string, b: string)
  {
    |a| == |b| && forall i :: 0 <= i < |a| ==> a[i] == b[i] || IsCaseOf(a[i], b[i]) || IsCaseOf(b[i], a[i])
  }

  predicate IsCaseOf(upper: char, lower: char)
  {
    'A' <= upper <= 'Z' && lower as int - 'a' as int == upper as int - 'A' as int
  }

  /** lower(a) = lower(b). */
  lemma LowerIsUpToCase(a: string, b: string)
    ensures Fold(ASCII, a) == Fold(ASCII, b) <==> SameUpToCase(a, b)
  {
    if SameUpToCase(a, b) {
      forall i | 0 <= i < |a| ensures Fold(ASCII, a)[i] == Fold(ASCII, b)[i] {
        LowerTwins(a[i], b[i]);
      }
    } else if |a| == |b| {
      var i :| 0 <= i < |a| && !(a[i] == b[i] || IsCaseOf(a[i], b[i]) || IsCaseOf(b[i], a[i]));
      LowerTwins(a[i], b[i]);
      assert Fold(ASCII, a)[i] != Fold(ASCII, b)[i];
    }
  }

  lemma LowerTwins(c: char, d: char)
    ensures FoldChar(ASCII, c) == FoldChar(ASCII, d) <==> c == d || IsCaseOf(c, d) || IsCaseOf(d, c)
  {
  }

  /** ILIKE folds both operands. */
  predicate ILike(folding: Folding, text: string, pattern: string)
  {
    Like(Fold(folding, text), Fold(folding, pattern))
  }

  lemma FoldConcat(folding: Folding, a: string, b: string)
    ensures Fold(folding, a + b) == Fold(folding, a) + Fold(folding, b)
  {
  }

  /** One character, escaped. */
  function EscapeChar(c: char): string
  {
    if IsMeta(c) then [ESCAPE, c] else [c]
  }

  lemma FoldEscapedChar(folding: Folding, c: char)
    ensures Fold(folding, EscapeChar(c)) == EscapeChar(FoldChar(folding, c))
  {
    assert IsMeta(ESCAPE);
  }

  lemma EscapeStep(c: char, rest: string)
    ensures EscapeLikePattern([c] + rest) == EscapeChar(c) + EscapeLikePattern(rest)
  {
    assert ([c] + rest)[1..] == rest;
  }

  /** Folding commutes with escaping. */
  lemma {:induction false} FoldEscape(folding: Folding, s: string)
    ensures Fold(folding, EscapeLikePattern(s)) == EscapeLikePattern(Fold(folding, s))
  {
    if |s| > 0 {
      assert s == [s[0]] + s[1..];
      EscapeStep(s[0], s[1..]);
      FoldConcat(folding, EscapeChar(s[0]), EscapeLikePattern(s[1..]));
      FoldEscapedChar(folding, s[0]);
      FoldEscape(folding, s[1..]);
      assert Fold(folding, s) == [FoldChar(folding, s[0])] + Fold(folding, s[1..]);
      EscapeStep(FoldChar(folding, s[0]), Fold(folding, s[1..]));
    }
  }

  lemma FoldWrapped(folding: Folding, s: string)
    ensures Fold(folding, "%" + s + "%") == "%" + Fold(folding, s) + "%"
  {
    assert IsMeta('%');
    FoldConcat(folding, "%" + s, "%");
    FoldConcat(folding, "%", s);
  }

  /** The e-mail filter of the audit log is a case-insensitive substring test, whatever
      the locale folds. */
  lemma ILikeSubstring(folding: Folding, text: string, s: string)
    ensures ILike(folding, text, "%" + EscapeLikePattern(s) + "%") <==> Contains(Fold(folding, text), Fold(folding, s))
  {
    FoldWrapped(folding, EscapeLikePattern(s));
    FoldEscape(folding, s);
    SubstringPatternIsContains(Fold(folding, text), Fold(folding, s));
  }
}
