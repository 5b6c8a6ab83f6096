// The comma-separated filter lists of the test runner: the tokenizer with its backslash escapes,
// and the writer it undoes.
module CommaList {

  function Flush(word: string): seq<string> {
    if word != "" then [word] else []
  }

  // The words in `s`, where `word` has been collected and `seen` tells of a pending backslash.
  function Words(s: string, seen: bool, word: string): seq<string>
    decreases |s|
  {
    if s == "" then Flush(if seen then word + "\\" else word)
    else if seen && s[0] in ",\\" then Words(s[1..], false, word + [s[0]])
    else
      var kept := if seen then word + "\\" else word;
      if s[0] == '\\' then Words(s[1..], true, kept)
      else if s[0] == ',' then Flush(kept) + Words(s[1..], false, "")
      else Words(s[1..], false, kept + [s[0]])
  }

  method Tokenize(list: string) returns (res: seq<string>)
    ensures res == Words(list, false, "")
  {
    res := [];
    var s, seenBackslash := "", false;
    var current := 0;
    while current < |list|
      invariant current <= |list|
      invariant res + Words(list[current..], seenBackslash, s) == Words(list, false, "")
    {
      var character := list[current];
      assert list[current..][0] == character && list[current..][1..] == list[current + 1..];
      current := current + 1;
      if seenBackslash {
        seenBackslash := false;
        if character == ',' || character == '\\' {
          s := s + [character];
          continue;
        }
        s := s + "\\";
      }
      if character == '\\' {
        seenBackslash := true;
      } else if character == ',' {
        res := res + Flush(s);
        s := "";
      } else {
        s := s + [character];
      }
    }
    if seenBackslash {
      s := s + "\\";
    }
    res := res + Flush(s);
  }

  // ---- Writing a list ----

  function Escape(word: string): string {
    if word == "" then ""
    else (if word[0] in ",\\" then ['\\', word[0]] else [word[0]]) + Escape(word[1..])
  }

  function Joined(words: seq<string>): string {
    if words == [] then ""
    else if |words| == 1 then Escape(words[0])
    else Escape(words[0]) + "," + Joined(words[1..])
  }

  function NonEmpty(words: seq<string>): seq<string> {
    if words == [] then [] else Flush(words[0]) + NonEmpty(words[1..])
  }

  lemma {:induction false} EscapedWordIsCollected(word: string, rest: string, collected: string)
    ensures Words(Escape(word) + rest, false, collected) == Words(rest, false, collected + word)
  {
    if word == "" {
      assert Escape(word) + rest == rest && collected + word == collected;
    } else {
      var c, s := word[0], Escape(word) + rest;
      var tail := Escape(word[1..]) + rest;
      if c in ",\\" {
        assert s[0] == '\\' && s[1..][0] == c && s[1..][1..] == tail;
        assert Words(s, false, collected) == Words(s[1..], true, collected);
      } else {
        assert s[0] == c && s[1..] == tail;
      }
      EscapedWordIsCollected(word[1..], rest, collected + [c]);
      assert collected + [c] + word[1..] == collected + word;
    }
  }

  // Tokenizing a written list gives back its non-empty words, whatever characters they contain.
  lemma {:induction false} TokenizeUndoesJoin(words: seq<string>)
    ensures Words(Joined(words), false, "") == NonEmpty(words)
  {
    if words != [] {
      var rest := if |words| == 1 then "" else "," + Joined(words[1..]);
      assert Joined(words) == Escape(words[0]) + rest;
      EscapedWordIsCollected(words[0], rest, "");
      assert "" + words[0] == words[0];
      TokenizeUndoesJoin(words[1..]);
      if |words| > 1 {
        assert rest[1..] == Joined(words[1..]);
      } else {
        assert words[1..] == [];
      }
    }
  }

  lemma {:induction false} NonEmptyKeepsAll(words: seq<string>)
    ensures |NonEmpty(words)| <= |words|
    ensures NonEmpty(words) == words <==> forall w <- words :: w != ""
  {
    if words != [] {
      NonEmptyKeepsAll(words[1..]);
      assert words == [words[0]] + words[1..];
      assert forall w :: w in words <==> w == words[0] || w in words[1..];
      if words[0] != "" {
        assert NonEmpty(words) == [words[0]] + NonEmpty(words[1..]);
        assert NonEmpty(words) == words ==> NonEmpty(words)[1..] == words[1..];
        assert NonEmpty(words)[1..] == NonEmpty(words[1..]);
      } else {
        assert words[0] in words && |NonEmpty(words)| < |words|;
      }
    }
  }

  // The list comes back unchanged exactly when it has no empty word.
  lemma {:induction false} RoundTripIff(words: seq<string>)
    ensures Words(Joined(words), false, "") == words <==> forall w <- words :: w != ""
  {
    TokenizeUndoesJoin(words);
    NonEmptyKeepsAll(words);
  }

  // A backslash in front of anything but a comma or a backslash is kept, also at the very end;
  // any other character but a comma is kept too, and a comma ends the word.
  lemma {:induction false} CharactersAreKept(c: char, rest: string, word: string)
    ensures c != ',' && c != '\\' ==> Words("\\" + [c] + rest, false, word) == Words(rest, false, word + "\\" + [c])
    ensures c != ',' && c != '\\' ==> Words([c] + rest, false, word) == Words(rest, false, word + [c])
    ensures c == ',' || c == '\\' ==> Words("\\" + [c] + rest, false, word) == Words(rest, false, word + [c])
    ensures Words("," + rest, false, word) == (if word == "" then [] else [word]) + Words(rest, false, "")
    ensures Words("\\", false, word) == [word + "\\"]
    ensures Words("", false, word) == if word == "" then [] else [word]
  {
    var s, t := "\\" + [c] + rest, [c] + rest;
    assert s[0] == '\\' && s[1..] == t && t[0] == c && t[1..] == rest;
    assert Words(s, false, word) == Words(t, true, word);
    assert ("," + rest)[1..] == rest;
    assert "\\"[1..] == "";
    assert Words("\\", false, word) == Words("", true, word);
  }

  lemma {:induction false} WordsAreNonEmpty(s: string, seen: bool, word: string)
    ensures forall w <- Words(s, seen, word) :: w != ""
    decreases |s|
  {
    if s != "" {
      var kept := if seen then word + "\\" else word;
      WordsAreNonEmpty(s[1..], false, word + [s[0]]);
      WordsAreNonEmpty(s[1..], true, kept);
      WordsAreNonEmpty(s[1..], false, "");
      WordsAreNonEmpty(s[1..], false, kept + [s[0]]);
    }
  }

  // Writing what any list, well written or not, was read as gives a list that reads the same.
  lemma {:induction false} RewritingIsStable(s: string)
    ensures Words(Joined(Words(s, false, "")), false, "") == Words(s, false, "")
  {
    WordsAreNonEmpty(s, false, "");
    RoundTripIff(Words(s, false, ""));
  }
}
