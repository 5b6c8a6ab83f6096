// What the sessions of the system send: one reply for each read, in order, whatever the
// interleaving; and the replies of a LineSession, which depend on the stream alone when its
// framing searches each rest from the start.
module Replies {
  import opened Common
  import opened Framing
  import L = LineSession
  import opened Dispatcher

  // The replies to all reads.
  function Sent(protocol: Protocol, chunks: seq<string>): (r: seq<string>)
    ensures |r| == |chunks|
  {
    if chunks == [] then [] else Sent(protocol, chunks[..|chunks| - 1]) + [protocol(chunks)]
  }

  lemma {:induction false} SentAppend(protocol: Protocol, chunks: seq<string>, x: string)
    ensures Sent(protocol, chunks + [x]) == Sent(protocol, chunks) + [protocol(chunks + [x])]
  {
    assert (chunks + [x])[..|chunks|] == chunks;
  }

  lemma {:induction false} SentAt(protocol: Protocol, chunks: seq<string>, i: nat)
    requires i < |chunks|
    ensures Sent(protocol, chunks)[i] == protocol(chunks[..i + 1])
    decreases |chunks|
  {
    var n := |chunks| - 1;
    if i < n {
      SentAt(protocol, chunks[..n], i);
      assert chunks[..n][..i + 1] == chunks[..i + 1];
    } else {
      assert chunks[..i + 1] == chunks;
    }
  }

  // ---- Every run of the system ----

  ghost predicate AnsweredIn(s: Session, replying: bool, protocol: Protocol) {
    if replying then s.received != [] && s.sent == Sent(protocol, s.received[..|s.received| - 1])
    else s.sent == Sent(protocol, s.received)
  }

  // A session has sent the replies to its reads, except to the one a worker is replying to.
  ghost predicate Answered(w: World)
    requires w.shards != []
  {
    forall fd :: HasSession(w, fd) ==>
      AnsweredIn(SessionOf(w, fd), w.shards[Home(w, fd)].phase == Replying(fd), w.protocol)
  }

  lemma {:induction false} RecvLeavesOne(s: Session, protocol: Protocol)
    requires AnsweredIn(s, false, protocol)
    ensures AnsweredIn(Recv(s), true, protocol)
  {
    var r := Recv(s);
    assert r.received[..|r.received| - 1] == s.received;
  }

  lemma {:induction false} ReplyAnswers(s: Session, protocol: Protocol)
    requires AnsweredIn(s, true, protocol)
    ensures AnsweredIn(s.(sent := s.sent + [protocol(s.received)]), false, protocol)
  {
  }

  lemma {:induction false} WorkKeepsAnswered(w: World, step: Step, fd: Fd)
    requires Inv(w) && Answered(w) && Enabled(w, step) && (step.Take? || step.Read? || step.Reply?)
    requires HasSession(Apply(w, step), fd)
    ensures var r := Apply(w, step);
            AnsweredIn(SessionOf(r, fd), r.shards[Home(r, fd)].phase == Replying(fd), r.protocol)
  {
    hide Tracked, Concat, AnsweredIn, Recv;
    var s := step.shard;
    assert ShardOk(w.shards[s], s, |w.shards|);
    assert HasSession(w, fd);
    assert AnsweredIn(SessionOf(w, fd), w.shards[Home(w, fd)].phase == Replying(fd), w.protocol);
    if step.Read? && w.shards[s].phase.fd == fd {
      RecvLeavesOne(SessionOf(w, fd), w.protocol);
    }
    if step.Reply? && w.shards[s].phase.fd == fd {
      ReplyAnswers(SessionOf(w, fd), w.protocol);
    }
  }

  lemma {:induction false} StepKeepsAnswered(w: World, step: Step)
    requires Inv(w) && Answered(w) && Enabled(w, step)
    ensures Answered(Apply(w, step))
  {
    hide Tracked, ValidBatch, Dropped, Ids, Concat;
    match step
    case Accept(fd, bytes) => AcceptAddsOne(w, fd, bytes);
    case Remove => RemoveDropsOne(w);
    case Take(_) => WorkStepKeepsAnswered(w, step);
    case Read(_) => WorkStepKeepsAnswered(w, step);
    case Reply(_) => WorkStepKeepsAnswered(w, step);
    case _ =>
  }

  lemma {:induction false} WorkStepKeepsAnswered(w: World, step: Step)
    requires w.shards != [] && Inv(w) && Answered(w) && Enabled(w, step) && (step.Take? || step.Read? || step.Reply?)
    ensures Answered(Apply(w, step))
  {
    hide Apply, Inv, Answered, Enabled, AnsweredIn, HasSession, SessionOf;
    forall fd | HasSession(Apply(w, step), fd)
      ensures var r := Apply(w, step);
              AnsweredIn(SessionOf(r, fd), r.shards[Home(r, fd)].phase == Replying(fd), r.protocol)
    {
      WorkKeepsAnswered(w, step, fd);
    }
    AnsweredFromEach(Apply(w, step));
  }

  lemma AnsweredFromEach(w: World)
    requires w.shards != []
    requires forall fd :: HasSession(w, fd) ==>
               AnsweredIn(SessionOf(w, fd), w.shards[Home(w, fd)].phase == Replying(fd), w.protocol)
    ensures Answered(w)
  {
  }

  // In every run each session has sent exactly the replies to its reads, in order; one may be
  // outstanding.
  lemma {:induction false} RunKeepsAnswered(w: World, steps: seq<Step>)
    requires Inv(w) && Answered(w) && Legal(w, steps)
    ensures Answered(After(w, steps))
    decreases |steps|
  {
    hide Tracked, Enabled, ShardOk, Answered;
    if steps != [] {
      StepKeepsAnswered(w, steps[0]);
      StepKeepsInv(w, steps[0]);
      RunKeepsAnswered(Apply(w, steps[0]), steps[1..]);
    }
  }

  // ---- Protocols ----

  // The reply stream depends on the byte stream alone.
  ghost predicate ChunkFree(protocol: Protocol) {
    forall a, b :: Concat(a) == Concat(b) ==> Concat(Sent(protocol, a)) == Concat(Sent(protocol, b))
  }

  // The calls of a LineSession on these reads, as the loop is written or as intended.
  function Calls(written: bool, buffer: string, chunks: seq<string>, sep: string): (r: seq<Cut>)
    requires sep != ""
    ensures |r| == |chunks|
  {
    if written then L.WrittenRun(buffer, chunks, sep) else L.IntendedRun(buffer, chunks, sep)
  }

  // What the last of them sends.
  function LineReply(written: bool, process: L.Process, sep: string, keep: bool, chunks: seq<string>): string
    requires sep != ""
  {
    if chunks == [] then ""
    else
      var calls, n := Calls(written, "", chunks, sep), |chunks| - 1;
      L.Responses(process, L.Requests(L.Whole("", calls[..n]).lines, sep, keep), L.Requests(calls[n].lines, sep, keep))
  }

  function LineProtocol(written: bool, process: L.Process, sep: string, keep: bool): Protocol
    requires sep != ""
  {
    chunks => LineReply(written, process, sep, keep, chunks)
  }

  lemma {:induction false} CallsAppend(written: bool, buffer: string, chunks: seq<string>, x: string, sep: string)
    requires sep != ""
    ensures var calls := Calls(written, buffer, chunks, sep);
            var s := L.Whole(buffer, calls).rest + x;
            Calls(written, buffer, chunks + [x], sep) == calls + [if written then FramedFrom(s, sep, 0) else Framed(s, sep)]
    decreases |chunks|
  {
    hide Framed, FramedFrom;
    if chunks == [] {
      assert chunks + [x] == [x];
    } else {
      var c := Calls(written, buffer, chunks, sep)[0];
      CallsAppend(written, c.rest, chunks[1..], x, sep);
      assert (chunks + [x])[1..] == chunks[1..] + [x];
      assert Calls(written, buffer, chunks, sep)[1..] == Calls(written, c.rest, chunks[1..], sep);
    }
  }

  lemma {:induction false} WholeAppend(buffer: string, calls: seq<Cut>, c: Cut)
    ensures L.Whole(buffer, calls + [c]) == Cut(L.Whole(buffer, calls).lines + c.lines, c.rest)
    decreases |calls|
  {
    if calls == [] {
      assert calls + [c] == [c];
      assert c.lines + [] == c.lines;
    } else {
      WholeAppend(calls[0].rest, calls[1..], c);
      assert (calls + [c])[1..] == calls[1..] + [c];
      var more := L.Whole(calls[0].rest, calls[1..]).lines;
      assert calls[0].lines + (more + c.lines) == calls[0].lines + more + c.lines;
    }
  }

  // The replies of a LineSession add up to the responses to all its lines.
  lemma {:induction false} LineRepliesAddUp(written: bool, process: L.Process, sep: string, keep: bool, chunks: seq<string>)
    requires sep != ""
    ensures Concat(Sent(LineProtocol(written, process, sep, keep), chunks))
         == L.Responses(process, [], L.Requests(L.Whole("", Calls(written, "", chunks, sep)).lines, sep, keep))
    decreases |chunks|
  {
    hide Framed, FramedFrom, L.Responses, L.Requests;
    var protocol := LineProtocol(written, process, sep, keep);
    if chunks == [] {
      L.NoRequests(process, [], sep, keep);
    } else {
      var n := |chunks| - 1;
      var b, x := chunks[..n], chunks[n];
      assert chunks == b + [x];
      LineRepliesAddUp(written, process, sep, keep, b);
      CallsAppend(written, "", b, x, sep);
      var calls, c := Calls(written, "", b, sep), Calls(written, "", chunks, sep)[n];
      assert Calls(written, "", chunks, sep) == calls + [c] && (calls + [c])[..n] == calls;
      WholeAppend("", calls, c);
      var before := L.Requests(L.Whole("", calls).lines, sep, keep);
      L.RequestsAppend(L.Whole("", calls).lines, c.lines, sep, keep);
      L.ResponsesAppend(process, [], before, L.Requests(c.lines, sep, keep));
      assert [] + before == before;
      ConcatAppend(Sent(protocol, b), protocol(chunks));
    }
  }

  // With the intended framing they depend on the byte stream alone.
  lemma {:induction false} LinesAreChunkFree(process: L.Process, sep: string, keep: bool)
    requires sep != ""
    ensures ChunkFree(LineProtocol(false, process, sep, keep))
  {
    var protocol := LineProtocol(false, process, sep, keep);
    forall a, b | Concat(a) == Concat(b)
      ensures Concat(Sent(protocol, a)) == Concat(Sent(protocol, b))
    {
      LineRepliesAddUp(false, process, sep, keep, a);
      LineRepliesAddUp(false, process, sep, keep, b);
      L.SameStreamSameResponses(process, a, b, sep, keep);
    }
  }

  // As written they are the intended ones when no call has a line shorter than the one before.
  lemma {:induction false} WrittenReplies(process: L.Process, sep: string, keep: bool, chunks: seq<string>)
    requires sep != "" && forall c <- L.IntendedRun("", chunks, sep) :: NonDecreasing(c.lines)
    ensures Concat(Sent(LineProtocol(true, process, sep, keep), chunks))
         == Concat(Sent(LineProtocol(false, process, sep, keep), chunks))
  {
    L.WrittenRunAgrees("", chunks, sep);
    LineRepliesAddUp(true, process, sep, keep, chunks);
    LineRepliesAddUp(false, process, sep, keep, chunks);
  }

  function Echo(before: seq<string>, request: string): string {
    request
  }

  lemma {:induction false} EchoGives(before: seq<string>, lines: seq<string>)
    ensures L.Responses(Echo, before, L.Requests(lines, "|", false)) == Concat(lines)
    decreases |lines|
  {
    if lines != [] {
      var requests := L.Requests(lines, "|", false);
      assert requests[0] == lines[0] && requests[1..] == L.Requests(lines[1..], "|", false);
      EchoGives(before + [requests[0]], lines[1..]);
    }
  }

  lemma {:induction false} LinesOfOneRead()
    ensures L.Whole("", Calls(true, "", ["a||b|"], "|")).lines == ["a", "|b"]
  {
    hide FramedFrom;
    AsWrittenMerges();
    var s := Cut(["a", "|b"], "");
    assert "" + "a||b|" == "a||b|";
    assert Calls(true, "", ["a||b|"], "|") == [s];
    assert L.Whole("", [s]).lines == ["a", "|b"];
  }

  lemma {:induction false} LinesOfTwoReads()
    ensures L.Whole("", Calls(true, "", ["a||", "b|"], "|")).lines == ["a", "", "b"]
  {
    hide FramedFrom;
    AsWrittenHoldsBack();
    var t, u := Cut(["a"], "|"), Cut(["", "b"], "");
    assert "" + "a||" == "a||" && "|" + "b|" == "|b|";
    assert L.WrittenRun("|", ["b|"], "|") == [u];
    assert ["a||", "b|"][1..] == ["b|"];
    assert Calls(true, "", ["a||", "b|"], "|") == [t, u];
    assert [t, u][1..] == [u];
    assert L.Whole("|", [u]).lines == u.lines;
  }

  lemma OneStream()
    ensures Concat(["a||b|"]) == Concat(["a||", "b|"]) == "a||b|"
  {
    assert ["a||", "b|"][1..] == ["b|"] && ["a||b|"][1..] == [] && ["b|"][1..] == [];
  }

  lemma TwoEchoes()
    ensures Concat(["a", "|b"]) == "a|b" && Concat(["a", "", "b"]) == "ab"
  {
    assert ["a", "|b"][1..] == ["|b"] && ["a", "", "b"][1..] == ["", "b"] && ["", "b"][1..] == ["b"];
  }

  // In general they do depend on the reads: with '|' as the separator, echoing "a||b|" gives "a|b"
  // for one read and "ab" when the read is cut behind the empty line.
  lemma {:induction false} WrittenIsNotChunkFree()
    ensures !ChunkFree(LineProtocol(true, Echo, "|", false))
  {
    hide Calls, LineProtocol, Sent, Concat;
    var whole, halves := ["a||b|"], ["a||", "b|"];
    OneStream();
    LinesOfOneRead();
    LinesOfTwoReads();
    LineRepliesAddUp(true, Echo, "|", false, whole);
    LineRepliesAddUp(true, Echo, "|", false, halves);
    EchoGives([], ["a", "|b"]);
    EchoGives([], ["a", "", "b"]);
    TwoEchoes();
  }

  // A LineSession object that is given these reads sends these replies.
  method Serve(process: L.Process, sep: string, keep: bool, chunks: seq<string>) returns (sent: seq<string>)
    requires sep != ""
    ensures sent == Sent(LineProtocol(true, process, sep, keep), chunks)
  {
    hide FramedFrom, L.Responses, L.Requests, L.Whole, Calls;
    ghost var protocol := LineProtocol(true, process, sep, keep);
    var session := new L.Session(process, keep, sep);
    sent := [];
    L.NoRequests(process, [], sep, keep);
    NothingServed(sep);
    for i := 0 to |chunks|
      invariant session.process == process && session.includeSeparator == keep && session.separator == sep
      invariant fresh(session)
      invariant sent == Sent(protocol, chunks[..i])
      invariant var whole := L.Whole("", Calls(true, "", chunks[..i], sep));
                session.buffer == whole.rest && session.requests == L.Requests(whole.lines, sep, keep)
    {
      assert chunks[..i + 1] == chunks[..i] + [chunks[i]];
      ghost var calls := Calls(true, "", chunks[..i], sep);
      CallsAppend(true, "", chunks[..i], chunks[i], sep);
      SentAppend(protocol, chunks[..i], chunks[i]);
      ghost var c := FramedFrom(session.buffer + chunks[i], sep, 0);
      WholeAppend("", calls, c);
      L.RequestsAppend(L.Whole("", calls).lines, c.lines, sep, keep);
      assert (calls + [c])[..i] == calls;
      var response := session.Iteration(chunks[i]);
      sent := sent + [response];
    }
    assert chunks[..|chunks|] == chunks;
  }

  lemma NothingServed(sep: string)
    requires sep != ""
    ensures L.Whole("", Calls(true, "", [], sep)) == Cut([], "")
  {
  }
}
