// A session that cuts its incoming bytes into lines: the object with its buffer, and what its
// runs deliver for every way the stream is cut into reads.
module LineSession {
  import opened Common
  import opened Framing

  // A protocol's process function; it may depend on everything it was given before.
  type Process = (seq<string>, string) -> string

  // The text handed to process for each line.
  function Requests(lines: seq<string>, sep: string, keep: bool): seq<string> {
    if lines == [] then []
    else [lines[0] + (if keep then sep else "")] + Requests(lines[1..], sep, keep)
  }

  function Responses(process: Process, before: seq<string>, requests: seq<string>): string
    decreases |requests|
  {
    if requests == [] then ""
    else process(before, requests[0]) + Responses(process, before + [requests[0]], requests[1..])
  }

  lemma {:induction false} RequestsAppend(a: seq<string>, b: seq<string>, sep: string, keep: bool)
    ensures Requests(a + b, sep, keep) == Requests(a, sep, keep) + Requests(b, sep, keep)
  {
    if a == [] {
      assert a + b == b;
    } else {
      RequestsAppend(a[1..], b, sep, keep);
      assert (a + b)[1..] == a[1..] + b;
      var head, more := [a[0] + (if keep then sep else "")], Requests(a[1..], sep, keep);
      assert head + (more + Requests(b, sep, keep)) == head + more + Requests(b, sep, keep);
    }
  }

  lemma {:induction false} ResponsesAppend(process: Process, before: seq<string>, a: seq<string>, b: seq<string>)
    ensures Responses(process, before, a + b) == Responses(process, before, a) + Responses(process, before + a, b)
    decreases |a|
  {
    if a == [] {
      assert a + b == b && before + a == before;
    } else {
      ResponsesAppend(process, before + [a[0]], a[1..], b);
      assert (a + b)[1..] == a[1..] + b && before + [a[0]] + a[1..] == before + a;
    }
  }

  lemma NoRequests(process: Process, before: seq<string>, sep: string, keep: bool)
    ensures Requests([], sep, keep) == [] && Responses(process, before, []) == ""
  {
  }

  lemma OneRequest(process: Process, before: seq<string>, line: string, sep: string, keep: bool)
    ensures var request := line + (if keep then sep else "");
            Requests([line], sep, keep) == [request] && Responses(process, before, [request]) == process(before, request)
  {
  }

  // ---- What the requests and responses are ----

  // With the separator kept, requests and rest are the buffer; without it, requests are the lines.
  lemma {:induction false} RequestsConserve(lines: seq<string>, rest: string, sep: string)
    ensures Concat(Requests(lines, sep, true)) + rest == Join(Cut(lines, rest), sep)
    ensures Requests(lines, sep, false) == lines
    decreases |lines|
  {
    if lines != [] {
      RequestsConserve(lines[1..], rest, sep);
      var head, more := lines[0] + sep, Requests(lines[1..], sep, true);
      assert Requests(lines, sep, true) == [head] + more && ([head] + more)[1..] == more;
      assert head + Concat(more) + rest == head + (Concat(more) + rest);
      assert lines[0] + "" == lines[0] && lines == [lines[0]] + lines[1..];
    }
  }

  // Each request is processed once, in order, after all the requests before it.
  lemma {:induction false} ResponsesInOrder(process: Process, before: seq<string>, requests: seq<string>)
    ensures Responses(process, before, requests) ==
            Concat(seq(|requests|, i requires 0 <= i < |requests| => process(before + requests[..i], requests[i])))
    decreases |requests|
  {
    var all := seq(|requests|, i requires 0 <= i < |requests| => process(before + requests[..i], requests[i]));
    if requests != [] {
      var later, more := before + [requests[0]], requests[1..];
      ResponsesInOrder(process, later, more);
      assert before + requests[..0] == before;
      forall i | 0 <= i < |more|
        ensures later + more[..i] == before + requests[..i + 1]
      {
        assert requests[..i + 1] == [requests[0]] + more[..i];
      }
      assert all[1..] == seq(|more|, i requires 0 <= i < |more| => process(later + more[..i], more[i]));
    }
  }

  class Session {
    const separator: string
    const includeSeparator: bool
    const process: Process
    var buffer: string
    var requests: seq<string>  // everything handed to process so far: what a protocol can remember

    constructor (process: Process, includeSeparator: bool, separator: string)
      ensures this.process == process && this.includeSeparator == includeSeparator && this.separator == separator
      ensures buffer == "" && requests == []
    {
      this.process, this.includeSeparator, this.separator := process, includeSeparator, separator;
      buffer, requests := "", [];
    }

    // One call: `chunk` is what the connection's recv returned, the result what is sent. With an
    // empty separator the loop would not end.
    method Iteration(chunk: string) returns (response: string)
      requires separator != ""
      modifies this
      ensures var cut := FramedFrom(old(buffer) + chunk, separator, 0);
              var given := Requests(cut.lines, separator, includeSeparator);
              && buffer == cut.rest
              && requests == old(requests) + given
              && response == Responses(process, old(requests), given)
    {
      hide Requests, Responses, Find, FramedFrom;
      NoRequests(process, requests, separator, includeSeparator);
      ghost var received := buffer + chunk;
      ghost var lines: seq<string> := [];
      response := "";
      buffer := buffer + chunk;
      var i := 0;
      while true
        invariant FramedFrom(received, separator, 0) == Then(Cut(lines, ""), FramedFrom(buffer, separator, i))
        invariant requests == old(requests) + Requests(lines, separator, includeSeparator)
        invariant response == Responses(process, old(requests), Requests(lines, separator, includeSeparator))
        decreases |buffer|
      {
        var found := Find(buffer, separator, i);
        if found.None? {
          WrittenNothing(buffer, separator, i);
          assert lines + [] == lines;
          break;
        }
        WrittenStep(buffer, separator, i, found.value);
        i := found.value;
        var request := buffer[..i] + (if includeSeparator then separator else "");
        assert request == buffer[..i + (if includeSeparator then |separator| else 0)];
        ghost var line := buffer[..i];
        OneRequest(process, requests, line, separator, includeSeparator);
        response := response + process(requests, request);
        RequestsAppend(lines, [line], separator, includeSeparator);
        ResponsesAppend(process, old(requests), Requests(lines, separator, includeSeparator), [request]);
        requests := requests + [request];
        ghost var later := FramedFrom(buffer[i + |separator|..], separator, i).lines;
        assert lines + ([line] + later) == lines + [line] + later;
        lines := lines + [line];
        buffer := buffer[i + |separator|..];
      }
    }
  }

  // ---- Runs over a list of reads ----

  // What each call of a run delivers and keeps, as intended and as written.
  function IntendedRun(buffer: string, chunks: seq<string>, sep: string): (r: seq<Cut>)
    requires sep != ""
    ensures |r| == |chunks|
    decreases |chunks|
  {
    if chunks == [] then []
    else
      var c := Framed(buffer + chunks[0], sep);
      [c] + IntendedRun(c.rest, chunks[1..], sep)
  }

  function WrittenRun(buffer: string, chunks: seq<string>, sep: string): (r: seq<Cut>)
    requires sep != ""
    ensures |r| == |chunks|
    decreases |chunks|
  {
    if chunks == [] then []
    else
      var c := FramedFrom(buffer + chunks[0], sep, 0);
      [c] + WrittenRun(c.rest, chunks[1..], sep)
  }

  // All lines of a run, and the buffer behind it.
  function Whole(buffer: string, run: seq<Cut>): Cut
    decreases |run|
  {
    if run == [] then Cut([], buffer) else Then(run[0], Whole(run[0].rest, run[1..]))
  }

  // The intended framing does not depend on how the stream is cut: lines and final buffer of a
  // run are those of the whole stream framed at once.
  lemma {:induction false} ChunkingDoesNotMatter(buffer: string, chunks: seq<string>, sep: string)
    requires sep != "" && !HasSeparator(buffer, sep)
    ensures Whole(buffer, IntendedRun(buffer, chunks, sep)) == Framed(buffer + Concat(chunks), sep)
    ensures !HasSeparator(Whole(buffer, IntendedRun(buffer, chunks, sep)).rest, sep)
    decreases |chunks|
  {
    hide Framed;
    if chunks == [] {
      assert buffer + Concat(chunks) == buffer;
      NothingToCut(buffer, sep);
    } else {
      var s := buffer + chunks[0];
      var c := Framed(s, sep);
      RestHasNoSeparator(s, sep);
      ChunkingDoesNotMatter(c.rest, chunks[1..], sep);
      FramedInTwoParts(s, Concat(chunks[1..]), sep);
      assert buffer + Concat(chunks) == s + Concat(chunks[1..]);
      assert IntendedRun(buffer, chunks, sep)[1..] == IntendedRun(c.rest, chunks[1..], sep);
    }
  }

  lemma {:induction false} NothingToCut(buffer: string, sep: string)
    requires sep != "" && !HasSeparator(buffer, sep)
    ensures Framed(buffer, sep) == Cut([], buffer)
  {
  }

  // The responses of a run, call by call, add up to those of all its lines.
  function RunResponses(process: Process, before: seq<string>, run: seq<Cut>, sep: string, keep: bool): string
    decreases |run|
  {
    if run == [] then ""
    else
      var given := Requests(run[0].lines, sep, keep);
      Responses(process, before, given) + RunResponses(process, before + given, run[1..], sep, keep)
  }

  lemma {:induction false} ResponsesOfRun(process: Process, before: seq<string>, buffer: string, run: seq<Cut>,
                                          sep: string, keep: bool)
    ensures RunResponses(process, before, run, sep, keep)
         == Responses(process, before, Requests(Whole(buffer, run).lines, sep, keep))
    decreases |run|
  {
    if run != [] {
      var given, more := Requests(run[0].lines, sep, keep), Whole(run[0].rest, run[1..]);
      ResponsesOfRun(process, before + given, run[0].rest, run[1..], sep, keep);
      RequestsAppend(run[0].lines, more.lines, sep, keep);
      ResponsesAppend(process, before, given, Requests(more.lines, sep, keep));
    }
  }

  // Two ways of cutting the same stream get the same lines, responses and final buffer.
  lemma {:induction false} SameStreamSameResponses(process: Process, a: seq<string>, b: seq<string>, sep: string, keep: bool)
    requires sep != "" && Concat(a) == Concat(b)
    ensures Whole("", IntendedRun("", a, sep)) == Whole("", IntendedRun("", b, sep))
    ensures RunResponses(process, [], IntendedRun("", a, sep), sep, keep)
         == RunResponses(process, [], IntendedRun("", b, sep), sep, keep)
  {
    assert !HasSeparator("", sep);
    ChunkingDoesNotMatter("", a, sep);
    ChunkingDoesNotMatter("", b, sep);
    ResponsesOfRun(process, [], "", IntendedRun("", a, sep), sep, keep);
    ResponsesOfRun(process, [], "", IntendedRun("", b, sep), sep, keep);
  }

  lemma {:induction false} WholeStep(buffer: string, chunks: seq<string>, sep: string)
    requires sep != "" && chunks != []
    ensures var c := FramedFrom(buffer + chunks[0], sep, 0);
            Whole(buffer, WrittenRun(buffer, chunks, sep)) == Then(c, Whole(c.rest, WrittenRun(c.rest, chunks[1..], sep)))
  {
    hide FramedFrom;
    var c := FramedFrom(buffer + chunks[0], sep, 0);
    assert WrittenRun(buffer, chunks, sep)[1..] == WrittenRun(c.rest, chunks[1..], sep);
  }

  // Over any run of the loop as written, lines, separators and final buffer are the bytes
  // received, in order.
  lemma {:induction false} WrittenRunConserves(buffer: string, chunks: seq<string>, sep: string)
    requires sep != ""
    ensures Join(Whole(buffer, WrittenRun(buffer, chunks, sep)), sep) == buffer + Concat(chunks)
    decreases |chunks|
  {
    hide FramedFrom;
    if chunks == [] {
      assert buffer + Concat(chunks) == buffer;
    } else {
      hide Join, Whole, WrittenRun;
      var s, tail := buffer + chunks[0], chunks[1..];
      var c := FramedFrom(s, sep, 0);
      FramedFromConserves(s, sep, 0);
      WrittenRunConserves(c.rest, tail, sep);
      WholeStep(buffer, chunks, sep);
      JoinThen(c, Whole(c.rest, WrittenRun(c.rest, tail, sep)), Concat(tail), sep);
      assert buffer + Concat(chunks) == s + Concat(tail);
    }
  }

  lemma {:induction false} JoinThen(c: Cut, d: Cut, more: string, sep: string)
    requires Join(d, sep) == c.rest + more
    ensures Join(Then(c, d), sep) == Join(c, sep) + more
    decreases |c.lines|
  {
    if c.lines == [] {
      assert Then(c, d) == d;
    } else {
      var tail := Cut(c.lines[1..], c.rest);
      JoinThen(tail, d, more, sep);
      assert Then(c, d).lines[1..] == tail.lines + d.lines;
      assert c.lines[0] + sep + (Join(tail, sep) + more) == c.lines[0] + sep + Join(tail, sep) + more;
    }
  }

  // A run of the loop as written behaves, call by call, as intended exactly when in every
  // intended call the complete lines have non-decreasing lengths.
  lemma {:induction false} WrittenRunAgrees(buffer: string, chunks: seq<string>, sep: string)
    requires sep != ""
    ensures WrittenRun(buffer, chunks, sep) == IntendedRun(buffer, chunks, sep) <==>
            forall c <- IntendedRun(buffer, chunks, sep) :: NonDecreasing(c.lines)
    decreases |chunks|
  {
    hide Framed, FramedFrom, NonDecreasing;
    if chunks != [] {
      var s, tail := buffer + chunks[0], chunks[1..];
      var c, w := Framed(s, sep), FramedFrom(s, sep, 0);
      AsWrittenAgrees(s, sep);
      WrittenRunAgrees(c.rest, tail, sep);
      var intended, written := IntendedRun(buffer, chunks, sep), WrittenRun(buffer, chunks, sep);
      assert intended == [c] + IntendedRun(c.rest, tail, sep) && intended[1..] == IntendedRun(c.rest, tail, sep);
      assert written[0] == w && written[1..] == WrittenRun(w.rest, tail, sep);
      assert intended[0] in intended;
      assert forall d :: d in intended <==> d == c || d in intended[1..];
    }
  }
}
