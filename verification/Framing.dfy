// Splitting a byte stream that arrives in chunks into lines: the loop of LineSession as written,
// whose search index survives the erase, and the intended loop that searches each rest from 0.
module Framing {
  import opened Common

  predicate At(sep: string, s: string, k: int) {
    0 <= k && k + |sep| <= |s| && s[k..k + |sep|] == sep
  }

  // std::string::find: the first occurrence at or after `from`.
  function Find(s: string, sep: string, from: nat): (r: Option<nat>)
    ensures r.Some? ==> from <= r.value && At(sep, s, r.value)
    ensures r.Some? ==> forall k :: from <= k < r.value ==> !At(sep, s, k)
    ensures r.None? ==> forall k :: from <= k ==> !At(sep, s, k)
    decreases |s| - from
  {
    if from + |sep| > |s| then None
    else if At(sep, s, from) then Some(from)
    else Find(s, sep, from + 1)
  }

  // Complete lines and the bytes behind them.
  datatype Cut = Cut(lines: seq<string>, rest: string)

  // The intended framing.
  function Framed(s: string, sep: string): (c: Cut)
    requires sep != ""
    decreases |s|
  {
    match Find(s, sep, 0)
    case None => Cut([], s)
    case Some(k) =>
      var c := Framed(s[k + |sep|..], sep);
      Cut([s[..k]] + c.lines, c.rest)
  }

  // The loop as written: `i` is where the previous line ended in the text before the erase.
  function FramedFrom(s: string, sep: string, i: nat): (c: Cut)
    requires sep != ""
    decreases |s|
  {
    match Find(s, sep, i)
    case None => Cut([], s)
    case Some(k) =>
      var c := FramedFrom(s[k + |sep|..], sep, k);
      Cut([s[..k]] + c.lines, c.rest)
  }

  function Join(c: Cut, sep: string): string
    decreases |c.lines|
  {
    if c.lines == [] then c.rest
    else c.lines[0] + sep + Join(Cut(c.lines[1..], c.rest), sep)
  }

  ghost predicate HasSeparator(s: string, sep: string) {
    exists k :: At(sep, s, k)
  }

  // ---- Facts about the intended framing ----

  lemma {:induction false} FirstOccurrence(s: string, sep: string, k: nat)
    requires At(sep, s, k) && forall j :: 0 <= j < k ==> !At(sep, s, j)
    ensures Find(s, sep, 0) == Some(k)
  {
  }

  // The first separator of a text is the first separator of every extension, whatever the
  // separator overlaps with.
  lemma {:induction false} FindInExtension(s: string, t: string, sep: string)
    requires Find(s, sep, 0).Some?
    ensures Find(s + t, sep, 0) == Find(s, sep, 0)
  {
    var k := Find(s, sep, 0).value;
    assert (s + t)[k..k + |sep|] == s[k..k + |sep|];
    forall j | 0 <= j < k
      ensures !At(sep, s + t, j)
    {
      assert (s + t)[j..j + |sep|] == s[j..j + |sep|];
      assert !At(sep, s, j);
    }
    FirstOccurrence(s + t, sep, k);
  }

  function Then(c: Cut, d: Cut): Cut {
    Cut(c.lines + d.lines, d.rest)
  }

  lemma FramedStep(s: string, sep: string, k: nat)
    requires sep != "" && Find(s, sep, 0) == Some(k)
    ensures Framed(s, sep) == Then(Cut([s[..k]], ""), Framed(s[k + |sep|..], sep))
  {
  }

  lemma FramedNothing(s: string, sep: string)
    requires sep != "" && Find(s, sep, 0) == None
    ensures Framed(s, sep) == Cut([], s)
  {
  }

  // Independence of chunking, one cut: framing a stream is framing its first part and then the
  // kept bytes together with the second part.
  lemma {:induction false} FramedInTwoParts(s: string, t: string, sep: string)
    requires sep != ""
    ensures Framed(s + t, sep) == Then(Framed(s, sep), Framed(Framed(s, sep).rest + t, sep))
    decreases |s|
  {
    hide Framed, Find;
    match Find(s, sep, 0)
    case None =>
      FramedNothing(s, sep);
      assert [] + Framed(s + t, sep).lines == Framed(s + t, sep).lines;
    case Some(k) =>
      var u := s[k + |sep|..];
      FindInExtension(s, t, sep);
      FramedStep(s, sep, k);
      FramedStep(s + t, sep, k);
      FramedInTwoParts(u, t, sep);
      assert (s + t)[k + |sep|..] == u + t && (s + t)[..k] == s[..k];
      var d := Framed(Framed(u, sep).rest + t, sep);
      assert [s[..k]] + (Framed(u, sep).lines + d.lines) == [s[..k]] + Framed(u, sep).lines + d.lines;
  }

  lemma {:induction false} RestHasNoSeparator(s: string, sep: string)
    requires sep != ""
    ensures !HasSeparator(Framed(s, sep).rest, sep)
    decreases |s|
  {
    if Find(s, sep, 0).Some? {
      RestHasNoSeparator(s[Find(s, sep, 0).value + |sep|..], sep);
    }
  }

  lemma {:induction false} LineHasNoSeparator(s: string, sep: string)
    requires sep != ""
    ensures forall line <- Framed(s, sep).lines :: !HasSeparator(line, sep)
    decreases |s|
  {
    match Find(s, sep, 0)
    case None =>
    case Some(k) =>
      LineHasNoSeparator(s[k + |sep|..], sep);
      forall j | At(sep, s[..k], j)
        ensures false
      {
        assert s[..k][j..j + |sep|] == s[j..j + |sep|];
        assert At(sep, s, j);
      }
  }

  lemma {:induction false} FramedConserves(s: string, sep: string)
    requires sep != ""
    ensures Join(Framed(s, sep), sep) == s
    decreases |s|
  {
    match Find(s, sep, 0)
    case None =>
    case Some(k) =>
      var c := Framed(s[k + |sep|..], sep);
      FramedConserves(s[k + |sep|..], sep);
      assert ([s[..k]] + c.lines)[1..] == c.lines;
      assert s == s[..k] + s[k..k + |sep|] + s[k + |sep|..];
  }

  // ---- The loop as written ----

  lemma {:induction false} WrittenStep(s: string, sep: string, i: nat, k: nat)
    requires sep != "" && Find(s, sep, i) == Some(k)
    ensures k + |sep| <= |s|
    ensures FramedFrom(s, sep, i) == Then(Cut([s[..k]], ""), FramedFrom(s[k + |sep|..], sep, k))
  {
  }

  lemma {:induction false} WrittenNothing(s: string, sep: string, i: nat)
    requires sep != "" && Find(s, sep, i) == None
    ensures FramedFrom(s, sep, i) == Cut([], s)
  {
  }

  // Whatever the index does, every byte stays in a line, a separator or the rest.
  lemma {:induction false} FramedFromConserves(s: string, sep: string, i: nat)
    requires sep != ""
    ensures Join(FramedFrom(s, sep, i), sep) == s
    decreases |s|
  {
    match Find(s, sep, i)
    case None =>
    case Some(k) =>
      var c := FramedFrom(s[k + |sep|..], sep, k);
      FramedFromConserves(s[k + |sep|..], sep, k);
      assert ([s[..k]] + c.lines)[1..] == c.lines;
      assert s == s[..k] + s[k..k + |sep|] + s[k + |sep|..];
  }

  ghost predicate NonDecreasing(lines: seq<string>) {
    forall i, j :: 0 <= i < j < |lines| ==> |lines[i]| <= |lines[j]|
  }

  lemma {:induction false} FindFrom(s: string, sep: string, i: nat)
    ensures Find(s, sep, 0).None? ==> Find(s, sep, i).None?
    ensures Find(s, sep, 0).Some? && i <= Find(s, sep, 0).value ==> Find(s, sep, i) == Find(s, sep, 0)
  {
    assert Find(s, sep, i).Some? ==> At(sep, s, Find(s, sep, i).value);
  }

  // Starting at `i`, the loop agrees with the intended framing exactly when no line is shorter
  // than `i` or than the line before it.
  lemma {:induction false} AgreesFrom(s: string, sep: string, i: nat)
    requires sep != ""
    ensures var lines := Framed(s, sep).lines;
            FramedFrom(s, sep, i) == Framed(s, sep) <==>
            lines == [] || (i <= |lines[0]| && NonDecreasing(lines))
    decreases |s|
  {
    FindFrom(s, sep, i);
    if Find(s, sep, 0).Some? {
      var k := Find(s, sep, 0).value;
      var lines, more := Framed(s, sep).lines, Framed(s[k + |sep|..], sep).lines;
      assert lines == [s[..k]] + more && |lines[0]| == k;
      if i <= k {
        AgreesFrom(s[k + |sep|..], sep, k);
        var c := FramedFrom(s[k + |sep|..], sep, k);
        assert FramedFrom(s, sep, i) == Cut([s[..k]] + c.lines, c.rest);
        assert ([s[..k]] + c.lines)[1..] == c.lines && lines[1..] == more;
        NonDecreasingCons(s[..k], more);
      } else {
        ShorterLineIsMissed(s, sep, i);
      }
    }
  }

  lemma {:induction false} NonDecreasingCons(line: string, more: seq<string>)
    ensures NonDecreasing([line] + more) <==> more == [] || (|line| <= |more[0]| && NonDecreasing(more))
  {
    var lines := [line] + more;
    if NonDecreasing(lines) && more != [] {
      assert |lines[0]| <= |lines[1]|;
      forall i, j | 0 <= i < j < |more|
        ensures |more[i]| <= |more[j]|
      {
        assert |lines[i + 1]| <= |lines[j + 1]|;
      }
    }
    if more != [] && |line| <= |more[0]| && NonDecreasing(more) {
      forall i, j | 0 <= i < j < |lines|
        ensures |lines[i]| <= |lines[j]|
      {
        assert lines[j] == more[j - 1];
        if i > 0 {
          assert lines[i] == more[i - 1];
        }
      }
    }
  }

  lemma {:induction false} ShorterLineIsMissed(s: string, sep: string, i: nat)
    requires sep != "" && Find(s, sep, 0).Some? && Find(s, sep, 0).value < i
    ensures FramedFrom(s, sep, i) != Framed(s, sep)
  {
    var k := Find(s, sep, 0).value;
    assert |Framed(s, sep).lines[0]| == k;
    if Find(s, sep, i).Some? {
      assert |FramedFrom(s, sep, i).lines[0]| == Find(s, sep, i).value;
    }
  }

  // One call of the loop as written delivers the intended lines and keeps the intended rest
  // exactly when the complete lines in its buffer have non-decreasing lengths.
  lemma {:induction false} AsWrittenAgrees(buffer: string, sep: string)
    requires sep != ""
    ensures FramedFrom(buffer, sep, 0) == Framed(buffer, sep) <==> NonDecreasing(Framed(buffer, sep).lines)
  {
    AgreesFrom(buffer, sep, 0);
  }

  lemma {:induction false} BarAt(s: string)
    ensures forall k :: At("|", s, k) <==> 0 <= k < |s| && s[k] == '|'
  {
    assert forall k :: 0 <= k < |s| ==> s[k..k + 1] == [s[k]];
  }

  lemma {:induction false} FindBar(s: string, from: nat, k: nat)
    requires from <= k < |s| && s[k] == '|' && forall j :: from <= j < k ==> s[j] != '|'
    ensures Find(s, "|", from) == Some(k)
  {
    BarAt(s);
  }

  lemma {:induction false} NothingFound(from: nat)
    ensures Framed("", "|") == Cut([], "") && FramedFrom("", "|", from) == Cut([], "")
  {
  }

  // With '|' as the separator, the empty line in "a||b|" is cut off by the intended framing and
  // merged into the line behind it by the loop as written.
  lemma {:induction false} IntendedCuts()
    ensures Framed("a||b|", "|") == Cut(["a", "", "b"], "")
  {
    hide Framed, Find;
    var s, t, u := "a||b|", "|b|", "b|";
    FindBar(s, 0, 1);
    FindBar(t, 0, 0);
    FindBar(u, 0, 1);
    assert s[2..] == t && t[1..] == u && u[2..] == "";
    assert s[..1] == "a" && t[..0] == "" && u[..1] == "b";
    FramedStep(s, "|", 1);
    FramedStep(t, "|", 0);
    FramedStep(u, "|", 1);
    NothingFound(0);
  }

  lemma {:induction false} AsWrittenMerges()
    ensures FramedFrom("a||b|", "|", 0) == Cut(["a", "|b"], "")
  {
    hide Find, At;
    var s, t := "a||b|", "|b|";
    FindBar(s, 0, 1);
    FindBar(t, 1, 2);
    assert s[2..] == t && t[3..] == "";
    assert s[..1] == "a" && t[..2] == "|b";
    NothingFound(2);
    assert FramedFrom(t, "|", 1) == Cut(["|b"], "");
  }

  // The same bytes in two reads: a line shorter than the one before it, and nothing behind it, is
  // held back in a rest that does contain a separator; the next call delivers it.
  lemma {:induction false} AsWrittenHoldsBack()
    ensures FramedFrom("a||", "|", 0) == Cut(["a"], "|") && HasSeparator("|", "|")
    ensures FramedFrom("|b|", "|", 0) == Cut(["", "b"], "")
  {
    hide Find, FramedFrom;
    var s, t, u := "a||", "|b|", "b|";
    FindBar(s, 0, 1);
    FindBar(t, 0, 0);
    FindBar(u, 0, 1);
    assert s[2..] == "|" && s[..1] == "a";
    assert t[1..] == u && u[2..] == "" && t[..0] == "" && u[..1] == "b";
    BarAt("|");
    assert At("|", "|", 0);
    FoundIsAt("|", "|", 1);
    WrittenStep(s, "|", 0, 1);
    WrittenNothing("|", "|", 1);
    WrittenStep(t, "|", 0, 0);
    WrittenStep(u, "|", 0, 1);
    NothingFound(1);
  }

  lemma FoundIsAt(s: string, sep: string, from: nat)
    ensures Find(s, sep, from).Some? ==> from + |sep| <= |s|
  {
  }
}
