// When the line loop as written leaves a complete line in its buffer.
module HeldBack {
  import opened Common
  import opened Framing

  // No proper end of the separator is a beginning of it, so its occurrences never overlap.
  ghost predicate NoBorder(sep: string) {
    forall k :: 0 < k < |sep| ==> sep[k..] != sep[..|sep| - k]
  }

  function Lengths(lines: seq<string>): seq<nat> {
    if lines == [] then [] else [|lines[0]|] + Lengths(lines[1..])
  }

  // A walk over the line lengths: `i` is the length of the line delivered last, `at` counts the
  // bytes passed over since. A line is delivered, with what was passed over, when it ends at or
  // behind `i`; whatever is passed over at the end stays.
  function Stuck(lengths: seq<nat>, gap: nat, i: nat, at: nat): bool
    decreases |lengths|
  {
    if lengths == [] then at > 0
    else
      var end := at + lengths[0];
      if end >= i then Stuck(lengths[1..], gap, end, 0) else Stuck(lengths[1..], gap, i, end + gap)
  }

  // Text that was passed over ends with a separator before `i`.
  ghost predicate Passed(p: string, sep: string, i: nat) {
    p == "" || (|p| >= |sep| && At(sep, p, |p| - |sep|) && |p| - |sep| < i)
  }

  lemma {:induction false} Overlap(t: string, sep: string, q: nat, j: nat)
    requires At(sep, t, q) && At(sep, t, j) && q < j < q + |sep|
    ensures !NoBorder(sep)
  {
    var k := j - q;
    assert sep[k..] == t[q..q + |sep|][k..] == t[j..q + |sep|];
    assert sep[..|sep| - k] == t[j..j + |sep|][..|sep| - k] == t[j..q + |sep|];
  }

  lemma {:induction false} AtBefore(p: string, s: string, sep: string, q: nat)
    requires At(sep, p, q)
    ensures At(sep, p + s, q)
  {
    assert (p + s)[q..q + |sep|] == p[q..q + |sep|];
  }

  lemma {:induction false} NoneAcross(p: string, s: string, sep: string, i: nat, j: nat)
    requires sep != "" && NoBorder(sep) && Passed(p, sep, i) && i <= j && At(sep, p + s, j)
    ensures |p| <= j && At(sep, s, j - |p|)
  {
    hide NoBorder;
    var t := p + s;
    if j < |p| {
      var q := |p| - |sep|;
      AtBefore(p, s, sep, q);
      Overlap(t, sep, q, j);
      assert false;
    }
    assert t[j..j + |sep|] == s[j - |p|..j - |p| + |sep|];
  }

  lemma {:induction false} FindBehind(p: string, s: string, sep: string, i: nat)
    requires sep != "" && NoBorder(sep) && Passed(p, sep, i)
    ensures Find(s, sep, 0) == None ==> Find(p + s, sep, i) == None
    ensures Find(s, sep, 0).Some? && |p| + Find(s, sep, 0).value >= i ==>
              Find(p + s, sep, i) == Some(|p| + Find(s, sep, 0).value)
  {
    hide NoBorder, Passed, At;
    var f := Find(p + s, sep, i);
    if f.Some? {
      NoneAcross(p, s, sep, i, f.value);
    }
    if Find(s, sep, 0).Some? {
      AtBehind(p, s, sep, Find(s, sep, 0).value);
    }
  }

  lemma {:induction false} AtBehind(p: string, s: string, sep: string, k: nat)
    requires At(sep, s, k)
    ensures At(sep, p + s, |p| + k)
  {
    assert (p + s)[|p| + k..|p| + k + |sep|] == s[k..k + |sep|];
  }

  lemma {:induction false} LengthsStep(s: string, sep: string, k: nat)
    requires sep != "" && Find(s, sep, 0) == Some(k)
    ensures Lengths(Framed(s, sep).lines) == [k] + Lengths(Framed(s[k + |sep|..], sep).lines)
  {
    var more := Framed(s[k + |sep|..], sep).lines;
    assert Framed(s, sep).lines == [s[..k]] + more;
    assert Framed(s, sep).lines[1..] == more;
  }

  lemma {:induction false} StuckAtTheEnd(p: string, s: string, sep: string, i: nat)
    requires sep != "" && Passed(p, sep, i) && Find(s, sep, 0) == None
    ensures HasSeparator(p + s, sep) <==> p != ""
  {
    if p == "" {
      assert p + s == s;
    } else {
      var q := |p| - |sep|;
      AtBefore(p, s, sep, q);
    }
  }

  lemma {:induction false} PassesOver(p: string, s: string, sep: string, i: nat, k: nat)
    requires At(sep, s, k) && |p| + k < i
    ensures var head, u := s[..k + |sep|], s[k + |sep|..];
            p + s == p + head + u && Passed(p + head, sep, i)
  {
    var head := s[..k + |sep|];
    assert s == head + s[k + |sep|..];
    assert (p + head)[|p| + k..|p| + k + |sep|] == s[k..k + |sep|];
  }

  lemma {:induction false} StuckFrom(p: string, s: string, sep: string, i: nat)
    requires sep != "" && NoBorder(sep) && Passed(p, sep, i)
    ensures HasSeparator(FramedFrom(p + s, sep, i).rest, sep) <==> Stuck(Lengths(Framed(s, sep).lines), |sep|, i, |p|)
    decreases |s|
  {
    hide NoBorder, FramedFrom, Framed, HasSeparator, Lengths, At;
    FindBehind(p, s, sep, i);
    match Find(s, sep, 0)
    case None =>
      WrittenNothing(p + s, sep, i);
      StuckAtTheEnd(p, s, sep, i);
      FramedNothing(s, sep);
      NoLengths();
    case Some(k) =>
      InBounds(s, sep, k);
      var head, u := s[..k + |sep|], s[k + |sep|..];
      LengthsStep(s, sep, k);
      var more := Lengths(Framed(u, sep).lines);
      assert ([k] + more)[1..] == more;
      if |p| + k >= i {
        WrittenStep(p + s, sep, i, |p| + k);
        assert (p + s)[|p| + k + |sep|..] == u == "" + u;
        StuckFrom("", u, sep, |p| + k);
      } else {
        PassesOver(p, s, sep, i, k);
        StuckFrom(p + head, u, sep, i);
      }
  }

  lemma NoLengths()
    ensures Lengths([]) == []
  {
  }

  lemma InBounds(s: string, sep: string, k: nat)
    requires Find(s, sep, 0) == Some(k)
    ensures k + |sep| <= |s| && At(sep, s, k)
  {
  }

  // For a separator that cannot overlap itself, a call of the loop as written leaves a complete
  // line in the buffer exactly when the walk over the lengths of the complete lines gets stuck.
  lemma {:induction false} HeldBackIff(buffer: string, sep: string)
    requires sep != "" && NoBorder(sep)
    ensures HasSeparator(FramedFrom(buffer, sep, 0).rest, sep) <==> Stuck(Lengths(Framed(buffer, sep).lines), |sep|, 0, 0)
  {
    assert "" + buffer == buffer;
    StuckFrom("", buffer, sep, 0);
  }

  // The default separator is one of these.
  lemma CrLfHasNoBorder()
    ensures NoBorder("\r\n")
  {
    assert "\r\n"[1..] == "\n" && "\r\n"[..1] == "\r";
  }

  lemma {:induction false} TwoAs(s: string, from: nat, k: nat)
    requires from <= k && k + 2 <= |s| && s[k] == 'a' && s[k + 1] == 'a'
    requires forall j :: from <= j < k ==> s[j] != 'a' || s[j + 1] != 'a'
    ensures Find(s, "aa", from) == Some(k)
  {
    assert s[k..k + 2] == "aa" && At("aa", s, k);
    forall j | from <= j < k
      ensures !At("aa", s, j)
    {
      assert s[j..j + 2] != "aa" by {
        assert s[j..j + 2][0] == s[j] && s[j..j + 2][1] == s[j + 1];
      }
    }
  }

  // For one that can, the lengths do not decide: with "aa", the line "c" in "bbaacaaa" is shorter
  // than "bb" and yet not held back, because the second separator is found one character later.
  lemma {:induction false} LengthsDoNotDecide()
    ensures Lengths(Framed("bbaacaaa", "aa").lines) == [2, 1] && Stuck([2, 1], 2, 0, 0)
    ensures FramedFrom("bbaacaaa", "aa", 0).rest == ""
  {
    hide Find, Framed, FramedFrom, Lengths;
    var s, t := "bbaacaaa", "caaa";
    TwoAs(s, 0, 2);
    TwoAs(t, 0, 1);
    TwoAs(t, 2, 2);
    assert s[4..] == t && t[3..] == "a" && t[4..] == "";
    TooShort("a", 0);
    TooShort("", 2);
    LengthsStep(s, "aa", 2);
    LengthsStep(t, "aa", 1);
    FramedNothing("a", "aa");
    NoLengths();
    assert [2] + ([1] + []) == [2, 1];
    WrittenStep(s, "aa", 0, 2);
    WrittenStep(t, "aa", 2, 2);
    WrittenNothing("", "aa", 2);
    assert [2, 1][1..] == [1] && [1][1..] == [];
    assert Stuck([], 2, 2, 3) && Stuck([1], 2, 2, 0);
  }

  lemma TooShort(s: string, from: nat)
    requires |s| < 2
    ensures Find(s, "aa", from) == None
  {
  }
}
