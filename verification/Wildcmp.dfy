// The glob matcher of the test runner: an iterative scan that backtracks only to the most
// recent '*', against the recursive meaning of a pattern.
module Wildcmp {

  // tolower in the C locale.
  function ToLower(c: char): char {
    if 'A' <= c <= 'Z' then (c - 'A') + 'a' else c
  }

  predicate SameChar(a: char, b: char, caseSensitive: bool) {
    if caseSensitive then a == b else ToLower(a) == ToLower(b)
  }

  // Whether one pattern character that is not '*' accepts one character of the text.
  predicate Accepts(p: char, c: char, caseSensitive: bool) {
    SameChar(p, c, caseSensitive) || p == '?'
  }

  // '*' stands for any string, '?' for any one character.
  ghost predicate Glob(wild: string, str: string, cs: bool)
    decreases |wild|, |str|
  {
    if wild == "" then str == ""
    else if wild[0] == '*' then Glob(wild[1..], str, cs) || (str != "" && Glob(wild, str[1..], cs))
    else str != "" && Accepts(wild[0], str[0], cs) && Glob(wild[1..], str[1..], cs)
  }

  // A star can give up characters at its front: what a suffix matches, the whole text does.
  lemma {:induction false} StarAbsorbs(wild: string, str: string, k: nat, cs: bool)
    requires wild != "" && wild[0] == '*' && k <= |str|
    requires Glob(wild, str[k..], cs)
    ensures Glob(wild, str, cs)
  {
    if k > 0 {
      assert str[k..] == str[1..][k - 1..];
      StarAbsorbs(wild, str[1..], k - 1, cs);
    }
  }

  lemma {:induction false} StarMatchesAll(str: string, cs: bool)
    ensures Glob("*", str, cs)
  {
    if str != "" {
      StarMatchesAll(str[1..], cs);
    } else {
      assert "*"[1..] == "";
    }
  }

  // ---- What the parts of a pattern match ----

  // The upper- and the lower-case form of one ASCII letter.
  ghost predicate TwoCases(a: char, b: char) {
    ('A' <= a <= 'Z' && b as int == a as int + 32) || ('A' <= b <= 'Z' && a as int == b as int + 32)
  }

  // A pattern without '*' and '?' matches the same text; without case, also one that differs only
  // in the case of ASCII letters.
  lemma {:induction false} PlainMatches(wild: string, str: string, cs: bool)
    requires forall i :: 0 <= i < |wild| ==> wild[i] != '*' && wild[i] != '?'
    ensures cs ==> (Glob(wild, str, cs) <==> wild == str)
    ensures !cs ==> (Glob(wild, str, cs) <==>
                       |wild| == |str| && forall i :: 0 <= i < |wild| ==> wild[i] == str[i] || TwoCases(wild[i], str[i]))
    decreases |wild|
  {
    if wild != "" && str != "" {
      hide TwoCases;
      PlainMatches(wild[1..], str[1..], cs);
      OneCharacter(wild[0], str[0], cs);
      assert wild == [wild[0]] + wild[1..] && str == [str[0]] + str[1..];
      assert forall i :: 0 <= i < |wild| - 1 ==> wild[1..][i] == wild[i + 1];
      assert forall i :: 0 <= i < |str| - 1 ==> str[1..][i] == str[i + 1];
      assert forall i :: 1 <= i < |wild| ==> wild[i] == wild[1..][i - 1];
      assert forall i :: 1 <= i < |str| ==> str[i] == str[1..][i - 1];
    }
  }

  lemma OneCharacter(a: char, b: char, cs: bool)
    requires a != '?'
    ensures Accepts(a, b, cs) <==> a == b || (!cs && TwoCases(a, b))
  {
  }

  lemma {:induction false} AnyOneMatches(str: string, cs: bool)
    ensures Glob("?", str, cs) <==> |str| == 1
  {
    assert "?"[1..] == "";
  }

  lemma {:induction false} PartsMatch(p: string, q: string, str: string, k: nat, cs: bool)
    requires k <= |str| && Glob(p, str[..k], cs) && Glob(q, str[k..], cs)
    ensures Glob(p + q, str, cs)
    decreases |p|, k
  {
    var head := str[..k];
    if p == "" {
      assert p + q == q && str[0..] == str;
    } else {
      assert (p + q)[0] == p[0] && (p + q)[1..] == p[1..] + q;
      if p[0] == '*' && Glob(p[1..], head, cs) {
        PartsMatch(p[1..], q, str, k, cs);
      } else {
        assert head[1..] == str[1..][..k - 1] && str[k..] == str[1..][k - 1..];
        PartsMatch(if p[0] == '*' then p else p[1..], q, str[1..], k - 1, cs);
      }
    }
  }

  lemma {:induction false} MatchHasParts(p: string, q: string, str: string, cs: bool) returns (k: nat)
    requires Glob(p + q, str, cs)
    ensures k <= |str| && Glob(p, str[..k], cs) && Glob(q, str[k..], cs)
    decreases |p|, |str|
  {
    if p == "" {
      assert p + q == q && str[0..] == str && str[..0] == "";
      k := 0;
    } else {
      assert (p + q)[0] == p[0] && (p + q)[1..] == p[1..] + q;
      if p[0] == '*' && Glob(p[1..] + q, str, cs) {
        k := MatchHasParts(p[1..], q, str, cs);
      } else {
        var later := MatchHasParts(if p[0] == '*' then p else p[1..], q, str[1..], cs);
        k := later + 1;
        assert str[..k][1..] == str[1..][..later] && str[k..] == str[1..][later..];
      }
    }
  }

  // A pattern in two parts matches a text that can be cut in two accordingly. With the plain
  // characters, '?' and '*' this says what every pattern matches.
  lemma {:induction false} GlobInTwoParts(p: string, q: string, str: string, cs: bool)
    ensures Glob(p + q, str, cs) <==> exists k :: 0 <= k <= |str| && Glob(p, str[..k], cs) && Glob(q, str[k..], cs)
  {
    if Glob(p + q, str, cs) {
      var k := MatchHasParts(p, q, str, cs);
    }
    forall k | 0 <= k <= |str| && Glob(p, str[..k], cs) && Glob(q, str[k..], cs)
      ensures Glob(p + q, str, cs)
    {
      PartsMatch(p, q, str, k, cs);
    }
  }

  // Pattern characters without a star, accepting a piece of text position by position.
  ghost predicate Aligned(lit: string, piece: string, cs: bool) {
    && |lit| == |piece|
    && forall i :: 0 <= i < |lit| ==> lit[i] != '*' && Accepts(lit[i], piece[i], cs)
  }

  // A star-free part of the pattern has only one way to match.
  lemma {:induction false} LiteralPrefix(lit: string, wild: string, str: string, cs: bool)
    requires forall i :: 0 <= i < |lit| ==> lit[i] != '*'
    ensures Glob(lit + wild, str, cs) <==>
            |lit| <= |str| && Aligned(lit, str[..|lit|], cs) && Glob(wild, str[|lit|..], cs)
  {
    if lit == "" {
      assert lit + wild == wild && str[0..] == str;
    } else {
      assert (lit + wild)[1..] == lit[1..] + wild;
      if str != "" {
        LiteralPrefix(lit[1..], wild, str[1..], cs);
        if |lit| <= |str| {
          assert str[1..][|lit| - 1..] == str[|lit|..];
          assert str[1..][..|lit| - 1] == str[..|lit|][1..];
          assert Aligned(lit, str[..|lit|], cs) <==>
                 Accepts(lit[0], str[0], cs) && Aligned(lit[1..], str[..|lit|][1..], cs);
        }
      }
    }
  }

  // The heart of the algorithm: once the text up to a second star has been aligned, the earlier
  // star never has to be reconsidered.
  lemma {:induction false} LastStarSuffices(lit: string, wild: string, str: string, cs: bool)
    requires wild != "" && wild[0] == '*'
    requires |lit| <= |str| && Aligned(lit, str[..|lit|], cs)
    ensures Glob("*" + lit + wild, str, cs) <==> Glob(wild, str[|lit|..], cs)
  {
    assert ("*" + lit + wild)[1..] == lit + wild;
    LiteralPrefix(lit, wild, str, cs);
    if Glob("*" + lit + wild, str, cs) {
      StarFindsSuffix(lit, wild, str, cs);
    }
  }

  lemma {:induction false} StarFindsSuffix(lit: string, wild: string, str: string, cs: bool)
    requires wild != "" && wild[0] == '*' && (forall i :: 0 <= i < |lit| ==> lit[i] != '*')
    requires Glob("*" + lit + wild, str, cs)
    ensures |lit| <= |str| && Glob(wild, str[|lit|..], cs)
    decreases |str|
  {
    assert ("*" + lit + wild)[1..] == lit + wild;
    LiteralPrefix(lit, wild, str, cs);
    if !Glob(lit + wild, str, cs) {
      StarFindsSuffix(lit, wild, str[1..], cs);
      assert str[1..][|lit|..] == str[|lit| + 1..] == str[|lit|..][1..];
      StarAbsorbs(wild, str[|lit|..], 1, cs);
    }
  }

  // A literal as long as the rest of the text cannot also match a shorter rest.
  lemma {:induction false} StarAtTheEnd(lit: string, wild: string, str: string, cs: bool)
    requires Aligned(lit, str, cs)
    ensures Glob("*" + lit + wild, str, cs) <==> Glob(wild, "", cs)
  {
    assert ("*" + lit + wild)[1..] == lit + wild;
    LiteralPrefix(lit, wild, str, cs);
    assert str[..|lit|] == str && str[|lit|..] == "";
    if str != "" {
      TooShort(lit, wild, str[1..], cs);
    }
  }

  lemma {:induction false} TooShort(lit: string, wild: string, str: string, cs: bool)
    requires |str| < |lit| && forall i :: 0 <= i < |lit| ==> lit[i] != '*'
    ensures !Glob("*" + lit + wild, str, cs)
    decreases |str|
  {
    assert ("*" + lit + wild)[1..] == lit + wild;
    LiteralPrefix(lit, wild, str, cs);
    if str != "" {
      TooShort(lit, wild, str[1..], cs);
    }
  }

  // What is left to decide, before the first star and while a star is being tried: wild[mp - 1]
  // is the star, and wild[mp..w] has been aligned with the text from cp - 1 on.
  ghost predicate Pending(wild: string, str: string, w: int, s: int, cs: bool)
    requires 0 <= w <= |wild| && 0 <= s <= |str|
  {
    Glob(wild, str, cs) <==> Glob(wild[w..], str[s..], cs)
  }

  ghost predicate Trying(wild: string, str: string, mp: int, cp: int, w: int, s: int, cs: bool)
    requires 0 <= w <= |wild| && 0 <= s <= |str|
  {
    && 1 <= mp <= w && mp < |wild| && wild[mp - 1] == '*'
    && 1 <= cp <= s + 1 && w - mp == s - (cp - 1)
    && Aligned(wild[mp..w], str[cp - 1..s], cs)
    && (Glob(wild, str, cs) <==> Glob(wild[mp - 1..], str[cp - 1..], cs))
  }

  lemma NothingRead(wild: string, str: string, cs: bool)
    ensures Pending(wild, str, 0, 0, cs)
  {
    assert wild[0..] == wild && str[0..] == str;
  }

  lemma {:induction false} PendingStep(wild: string, str: string, w: int, s: int, cs: bool)
    requires 0 <= w <= |wild| && 0 <= s < |str| && !(w < |wild| && wild[w] == '*')
    requires Pending(wild, str, w, s, cs)
    ensures if w < |wild| && Accepts(wild[w], str[s], cs) then Pending(wild, str, w + 1, s + 1, cs)
            else !Glob(wild, str, cs)
  {
    assert str[s..][1..] == str[s + 1..];
    if w < |wild| {
      assert wild[w..][1..] == wild[w + 1..];
    }
  }

  lemma {:induction false} StartStar(wild: string, str: string, w: int, s: int, cs: bool)
    requires 0 <= w < |wild| && 0 <= s < |str| && wild[w] == '*'
    requires Pending(wild, str, w, s, cs)
    ensures if w + 1 == |wild| then Glob(wild, str, cs) else Trying(wild, str, w + 1, s + 1, w + 1, s, cs)
  {
    if w + 1 == |wild| {
      StarMatchesAll(str[s..], cs);
      assert wild[w..] == "*";
    }
  }

  lemma {:induction false} Extend(wild: string, str: string, mp: int, cp: int, w: int, s: int, cs: bool)
    requires 0 <= w < |wild| && 0 <= s < |str| && wild[w] != '*' && Accepts(wild[w], str[s], cs)
    requires Trying(wild, str, mp, cp, w, s, cs)
    ensures Trying(wild, str, mp, cp, w + 1, s + 1, cs)
  {
    hide Glob, Accepts;
    assert wild[mp..w + 1] == wild[mp..w] + [wild[w]];
    assert str[cp - 1..s + 1] == str[cp - 1..s] + [str[s]];
  }

  lemma {:induction false} TextUsedUp(wild: string, str: string, mp: int, cp: int, w: int, cs: bool)
    requires 0 <= w <= |wild| && Trying(wild, str, mp, cp, w, |str|, cs)
    ensures Pending(wild, str, w, |str|, cs)
  {
    var lit := wild[mp..w];
    StarAtTheEnd(lit, wild[w..], str[cp - 1..], cs);
    assert wild[mp - 1..] == "*" + lit + wild[w..];
    assert str[cp - 1..|str|] == str[cp - 1..] && str[|str|..] == "";
  }

  lemma {:induction false} SkipStar(wild: string, str: string, w: int, cs: bool)
    requires 0 <= w < |wild| && wild[w] == '*' && Pending(wild, str, w, |str|, cs)
    ensures Pending(wild, str, w + 1, |str|, cs)
  {
    assert wild[w..][1..] == wild[w + 1..];
  }

  lemma {:induction false} AtTheEnd(wild: string, str: string, w: int, cs: bool)
    requires 0 <= w <= |wild| && Pending(wild, str, w, |str|, cs) && (w < |wild| ==> wild[w] != '*')
    ensures Glob(wild, str, cs) <==> w == |wild|
  {
  }

  lemma {:induction false} StarReplacesStar(wild: string, str: string, mp: int, cp: int, w: int, s: int, cs: bool)
    requires 0 <= w < |wild| && 0 <= s < |str| && wild[w] == '*'
    requires Trying(wild, str, mp, cp, w, s, cs)
    ensures Pending(wild, str, w, s, cs)
  {
    var lit, text := wild[mp..w], str[cp - 1..];
    assert wild[mp - 1..] == "*" + lit + wild[w..];
    assert text[..|lit|] == str[cp - 1..s] && text[|lit|..] == str[s..];
    LastStarSuffices(lit, wild[w..], text, cs);
  }

  lemma {:induction false} Mismatch(wild: string, str: string, mp: int, cp: int, w: int, s: int, cs: bool)
    requires 0 <= w <= |wild| && 0 <= s < |str|
    requires w < |wild| ==> wild[w] != '*' && !Accepts(wild[w], str[s], cs)
    requires Trying(wild, str, mp, cp, w, s, cs)
    ensures Trying(wild, str, mp, cp + 1, mp, cp, cs)
  {
    var lit, text := wild[mp..w], str[cp - 1..];
    assert wild[mp - 1..][1..] == wild[mp..] == lit + wild[w..];
    assert text[1..] == str[cp..] && text[|lit|..] == str[s..];
    LiteralPrefix(lit, wild[w..], text, cs);
  }

  // Whether `str` matches `wild`: the pointers of the source are positions, and a pattern
  // pointer at the end stands on the terminator, which no text character equals.
  method Match(str: string, wild: string, caseSensitive: bool) returns (r: bool)
    ensures r <==> Glob(wild, str, caseSensitive)
  {
    hide Glob, Trying, Pending, Accepts;
    var cp, mp := 0, 0;
    var s, w := 0, 0;
    NothingRead(wild, str, caseSensitive);
    while s < |str| && !(w < |wild| && wild[w] == '*')
      invariant 0 <= s <= |str| && 0 <= w <= |wild|
      invariant Pending(wild, str, w, s, caseSensitive)
    {
      PendingStep(wild, str, w, s, caseSensitive);
      if !(w < |wild| && Accepts(wild[w], str[s], caseSensitive)) {
        return false;
      }
      w := w + 1;
      s := s + 1;
    }

    while s < |str|
      invariant 0 <= s <= |str| && 0 <= w <= |wild|
      invariant mp == 0 ==> Pending(wild, str, w, s, caseSensitive) && (s < |str| ==> w < |wild| && wild[w] == '*')
      invariant mp != 0 ==> 1 <= mp <= w && 1 <= cp <= s + 1 && Trying(wild, str, mp, cp, w, s, caseSensitive)
      decreases |wild| - mp, |str| + 1 - cp, |str| - s
    {
      if w < |wild| && wild[w] == '*' {
        if mp != 0 {
          StarReplacesStar(wild, str, mp, cp, w, s, caseSensitive);
        }
        StartStar(wild, str, w, s, caseSensitive);
        w := w + 1;
        if w == |wild| {
          return true;
        }
        mp := w;
        cp := s + 1;
      } else if w < |wild| && Accepts(wild[w], str[s], caseSensitive) {
        Extend(wild, str, mp, cp, w, s, caseSensitive);
        w := w + 1;
        s := s + 1;
      } else {
        Mismatch(wild, str, mp, cp, w, s, caseSensitive);
        w := mp;
        s := cp;
        cp := cp + 1;
      }
    }

    if mp != 0 {
      TextUsedUp(wild, str, mp, cp, w, caseSensitive);
    }
    while w < |wild| && wild[w] == '*'
      invariant 0 <= w <= |wild|
      invariant Pending(wild, str, w, |str|, caseSensitive)
    {
      SkipStar(wild, str, w, caseSensitive);
      w := w + 1;
    }
    AtTheEnd(wild, str, w, caseSensitive);
    r := w == |wild|;
  }
}
