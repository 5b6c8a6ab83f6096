// The multi-threaded server against the single-threaded one: every run of the one is a run of the
// other on the same poll batches, accepts and arrivals, with the same results once it is drained.
module Refinement {
  import opened Common
  import opened Framing
  import L = LineSession
  import opened Dispatcher
  import opened Coverage
  import opened Replies

  // ---- ThreadSingle: data_available runs the iteration in place ----

  function SingleData(t: Shard, fd: Fd, protocol: Protocol): Shard {
    if fd !in t.sessions then t
    else
      var s := Recv(t.sessions[fd]);
      t.(sessions := t.sessions[fd := s.(sent := s.sent + [protocol(s.received)])])
  }

  predicate IsMainStep(step: Step) {
    !step.Take? && !step.Read? && !step.Reply?
  }

  function SingleApply(w: World, step: Step): (r: World)
    requires w.shards != []
    ensures |r.shards| == |w.shards| && r.reserved == w.reserved && r.protocol == w.protocol
  {
    if step.Notify? && w.batch != [] && w.batch[0].DataReady? then
      WithShard(w, w.batch[0].fd, SingleData(w.shards[Home(w, w.batch[0].fd)], w.batch[0].fd, w.protocol)).(batch := w.batch[1..])
    else Apply(w, step)
  }

  ghost predicate SingleLegal(w: World, steps: seq<Step>)
    requires w.shards != []
    decreases |steps|
  {
    steps == [] || (IsMainStep(steps[0]) && Enabled(w, steps[0]) && SingleLegal(SingleApply(w, steps[0]), steps[1..]))
  }

  function SingleAfter(w: World, steps: seq<Step>): (r: World)
    requires w.shards != []
    ensures |r.shards| == |w.shards| && r.reserved == w.reserved && r.protocol == w.protocol
    decreases |steps|
  {
    if steps == [] then w else SingleAfter(SingleApply(w, steps[0]), steps[1..])
  }

  // A single-threaded run as a run with one worker that is always quick enough.
  function Expand(steps: seq<Step>): seq<Step> {
    if steps == [] then []
    else (if steps[0].Notify? then [Notify, Take(0), Read(0), Reply(0)] else [steps[0]]) + Expand(steps[1..])
  }

  ghost predicate OneIdleThread(w: World) {
    |w.shards| == 1 && w.shards[0].queue == [] && w.shards[0].phase.Idle?
  }

  lemma {:induction false} AppendRun(w: World, a: seq<Step>, b: seq<Step>)
    requires w.shards != []
    ensures After(w, a + b) == After(After(w, a), b)
    ensures Legal(w, a + b) <==> Legal(w, a) && Legal(After(w, a), b)
    decreases |a|
  {
    hide Apply, Enabled;
    if a == [] {
      assert a + b == b;
    } else {
      assert (a + b)[1..] == a[1..] + b;
      AppendRun(Apply(w, a[0]), a[1..], b);
    }
  }

  lemma {:induction false} NoticeInFourSteps(w: World)
    requires Inv(w) && OneIdleThread(w) && Enabled(w, Notify)
    ensures var four := [Notify, Take(0), Read(0), Reply(0)];
            Legal(w, four) && After(w, four) == SingleApply(w, Notify)
    ensures OneIdleThread(SingleApply(w, Notify))
  {
    hide Recv, ValidBatch, Legal, After, Apply, Tracked;
    assert HasSession(w, w.batch[0].fd) by { PendingHasSession(w); }
    FourSteps(w);
    var a := Apply(w, Notify);
    var b := Apply(a, Take(0));
    var c := Apply(b, Read(0));
    var r := Apply(c, Reply(0));
    assert [Reply(0)] + [] == [Reply(0)];
    assert [Read(0)] + [Reply(0)] == [Read(0), Reply(0)];
    assert [Take(0)] + [Read(0), Reply(0)] == [Take(0), Read(0), Reply(0)];
    assert [Notify] + [Take(0), Read(0), Reply(0)] == [Notify, Take(0), Read(0), Reply(0)];
    NoSteps(r);
    OneStep(c, Reply(0), []);
    OneStep(b, Read(0), [Reply(0)]);
    OneStep(a, Take(0), [Read(0), Reply(0)]);
    OneStep(w, Notify, [Take(0), Read(0), Reply(0)]);
  }

  lemma PendingHasSession(w: World)
    requires Inv(w) && w.batch != [] && w.batch[0].DataReady?
    ensures HasSession(w, w.batch[0].fd)
  {
    assert w.batch[0] in w.batch;
  }

  lemma NoSteps(w: World)
    requires w.shards != []
    ensures Legal(w, []) && After(w, []) == w
  {
  }

  lemma OneStep(w: World, step: Step, more: seq<Step>)
    requires w.shards != []
    ensures Legal(w, [step] + more) <==> Enabled(w, step) && Legal(Apply(w, step), more)
    ensures After(w, [step] + more) == After(Apply(w, step), more)
  {
    hide Apply, Enabled;
    assert ([step] + more)[1..] == more;
  }

  lemma {:induction false} FourSteps(w: World)
    requires OneIdleThread(w) && Enabled(w, Notify) && HasSession(w, w.batch[0].fd)
    ensures var a := Apply(w, Notify);
            var b := Apply(a, Take(0));
            var c := Apply(b, Read(0));
            var r := Apply(c, Reply(0));
            && Enabled(a, Take(0)) && Enabled(b, Read(0)) && Enabled(c, Reply(0))
            && r == SingleApply(w, Notify) && OneIdleThread(r)
  {
    hide Recv, ValidBatch;
    var fd := w.batch[0].fd;
    var t := w.shards[0];
    assert Home(w, fd) == 0;
    assert TakeFrom(Push(t, fd)) == t.(phase := Reading(fd));
    var s := Recv(t.sessions[fd]);
    var done := s.(sent := s.sent + [w.protocol(s.received)]);
    var u := ReadIn(t.(phase := Reading(fd)));
    assert u == t.(sessions := t.sessions[fd := s], phase := Replying(fd));
    assert t.sessions[fd := s][fd := done] == t.sessions[fd := done];
    assert ReplyIn(u, w.protocol) == SingleData(t, fd, w.protocol);
  }

  lemma {:induction false} MainStepKeepsIdle(w: World, step: Step)
    requires OneIdleThread(w) && Enabled(w, step) && IsMainStep(step) && !step.Notify?
    ensures OneIdleThread(Apply(w, step)) && SingleApply(w, step) == Apply(w, step)
  {
    hide ValidBatch;
  }

  // Every single-threaded run is a run of the multi-threaded system with one worker.
  lemma {:induction false} SingleRunIsMultiRun(w: World, steps: seq<Step>)
    requires w.shards != [] && Inv(w) && OneIdleThread(w) && SingleLegal(w, steps)
    ensures Legal(w, Expand(steps)) && After(w, Expand(steps)) == SingleAfter(w, steps)
    ensures OneIdleThread(SingleAfter(w, steps))
    decreases |steps|
  {
    hide Inv, Apply, Enabled, OneIdleThread, SingleApply;
    if steps == [] {
      NoSteps(w);
    } else {
      var step, r := steps[0], SingleApply(w, steps[0]);
      var part := if step.Notify? then [Notify, Take(0), Read(0), Reply(0)] else [step];
      if step.Notify? {
        NoticeInFourSteps(w);
      } else {
        MainStepKeepsIdle(w, step);
        NoSteps(r);
        OneStep(w, step, []);
        assert part == [step] + [];
      }
      InvAfter(w, part);
      SingleRunIsMultiRun(r, steps[1..]);
      AppendRun(w, part, Expand(steps[1..]));
    }
  }

  lemma {:induction false} InvAfter(w: World, steps: seq<Step>)
    requires Inv(w) && Legal(w, steps)
    ensures Inv(After(w, steps))
  {
    RunKeepsInv(w, steps);
  }

  // ---- Every multi-threaded run follows a single-threaded one ----

  // The same poll batches, accepts and arrivals, without the workers' steps.
  function Erase(steps: seq<Step>): seq<Step> {
    if steps == [] then []
    else (if IsMainStep(steps[0]) then [steps[0]] else []) + Erase(steps[1..])
  }

  // The same connection, with the same bytes and notices; the reads may differ.
  ghost predicate SameTraffic(s: Session, t: Session) {
    s.id == t.id && Arrived(s) == Arrived(t) && s.notices == t.notices
  }

  ghost predicate Mirrors(w: World, v: World)
    requires w.shards != []
  {
    && OneIdleThread(v)
    && v.interest == w.interest && v.batch == w.batch && v.accepted == w.accepted && v.before == w.before
    && v.nextId == w.nextId && v.reserved == w.reserved && v.open == w.open && v.protocol == w.protocol
    && (forall fd :: HasSession(w, fd) <==> HasSession(v, fd))
    && (forall fd :: HasSession(w, fd) ==> SameTraffic(SessionOf(w, fd), SessionOf(v, fd)))
  }

  lemma {:induction false} WorkKeepsTraffic(w: World, step: Step)
    requires Inv(w) && Enabled(w, step) && !IsMainStep(step)
    ensures var r := Apply(w, step);
            && r.(shards := w.shards) == w
            && (forall fd :: HasSession(w, fd) <==> HasSession(r, fd))
            && (forall fd :: HasSession(w, fd) ==> SameTraffic(SessionOf(w, fd), SessionOf(r, fd)))
  {
    hide Tracked, Recv, Concat;
    var s := step.shard;
    assert ShardOk(w.shards[s], s, |w.shards|);
    forall fd
      ensures HasSession(w, fd) <==> HasSession(Apply(w, step), fd)
      ensures HasSession(w, fd) ==> SameTraffic(SessionOf(w, fd), SessionOf(Apply(w, step), fd))
    {
      if HasSession(w, fd) {
        RecvTraffic(SessionOf(w, fd));
      }
    }
  }

  lemma RecvTraffic(s: Session)
    ensures SameTraffic(s, Recv(s))
    ensures forall replies :: SameTraffic(s, s.(sent := replies))
  {
    RecvKeepsArrived(s);
  }

  lemma {:induction false} ArriveMirrors(w: World, v: World, fd: Fd, bytes: string)
    requires w.shards != [] && Mirrors(w, v) && HasSession(w, fd)
    ensures Mirrors(Apply(w, Arrive(fd, bytes)), Apply(v, Arrive(fd, bytes)))
  {
    hide Concat;
    var r, q := Apply(w, Arrive(fd, bytes)), Apply(v, Arrive(fd, bytes));
    forall f
      ensures HasSession(r, f) <==> HasSession(q, f)
      ensures HasSession(r, f) ==> SameTraffic(SessionOf(r, f), SessionOf(q, f))
    {
      assert HasSession(r, f) <==> HasSession(w, f);
      if HasSession(w, f) {
        var s, t := SessionOf(w, f), SessionOf(v, f);
        assert SameTraffic(s, t);
        assert Consumed(s) + (s.unread + bytes) == Arrived(s) + bytes;
        assert Consumed(t) + (t.unread + bytes) == Arrived(t) + bytes;
      }
    }
  }

  lemma {:induction false} PollMirrors(w: World, v: World, events: seq<Event>)
    requires w.shards != [] && Mirrors(w, v) && Enabled(w, Poll(events))
    ensures Enabled(v, Poll(events)) && Mirrors(Apply(w, Poll(events)), Apply(v, Poll(events)))
  {
    hide Concat, Dropped;
    var r, q := Apply(w, Poll(events)), Apply(v, Poll(events));
    forall fd
      ensures HasSession(r, fd) <==> HasSession(w, fd)
      ensures HasSession(q, fd) <==> HasSession(v, fd)
      ensures HasSession(w, fd) ==> SameTraffic(SessionOf(r, fd), SessionOf(q, fd))
    {
      if HasSession(w, fd) {
        assert SameTraffic(SessionOf(w, fd), SessionOf(v, fd));
      }
    }
    assert Ids(w) == Ids(v);
  }

  lemma {:induction false} AcceptMirrors(w: World, v: World, fd: Fd, bytes: string)
    requires w.shards != [] && Mirrors(w, v) && Enabled(w, Accept(fd, bytes))
    ensures Enabled(v, Accept(fd, bytes))
    ensures Mirrors(Apply(w, Accept(fd, bytes)), Apply(v, Accept(fd, bytes)))
  {
    hide SameTraffic;
    AcceptAddsOne(w, fd, bytes);
    AcceptAddsOne(v, fd, bytes);
    SameAsItself(NewSession(w.nextId, bytes));
  }

  lemma SameAsItself(s: Session)
    ensures SameTraffic(s, s)
  {
  }

  lemma {:induction false} RemoveMirrors(w: World, v: World)
    requires w.shards != [] && Mirrors(w, v) && Enabled(w, Remove)
    ensures Enabled(v, Remove) && Mirrors(Apply(w, Remove), Apply(v, Remove))
  {
    hide SameTraffic;
    RemoveDropsOne(w);
    RemoveDropsOne(v);
  }

  // The single-threaded server reads at once what the other one only queues.
  lemma {:induction false} NotifyMirrors(w: World, v: World)
    requires w.shards != [] && Mirrors(w, v) && Enabled(w, Notify)
    ensures Enabled(v, Notify) && Mirrors(Apply(w, Notify), SingleApply(v, Notify))
  {
    hide Recv, Concat;
    var f := w.batch[0].fd;
    var r, q := Apply(w, Notify), SingleApply(v, Notify);
    forall fd
      ensures HasSession(r, fd) <==> HasSession(q, fd)
      ensures HasSession(r, fd) ==> SameTraffic(SessionOf(r, fd), SessionOf(q, fd))
    {
      assert HasSession(r, fd) <==> HasSession(w, fd);
      if HasSession(w, fd) {
        RecvTraffic(SessionOf(v, fd));
        RecvTraffic(Recv(SessionOf(v, fd)));
        assert SameTraffic(SessionOf(w, fd), SessionOf(v, fd));
      }
    }
  }

  lemma {:induction false} StepMirrors(w: World, v: World, step: Step)
    requires w.shards != [] && Inv(w) && Mirrors(w, v) && Enabled(w, step)
    ensures if IsMainStep(step) then Enabled(v, step) && Mirrors(Apply(w, step), SingleApply(v, step))
            else Mirrors(Apply(w, step), v)
  {
    hide ValidBatch, SameTraffic, Tracked, HasSession, SessionOf;
    match step
    case Arrive(fd, bytes) => ArriveMirrors(w, v, fd, bytes);
    case Poll(events) => PollMirrors(w, v, events);
    case Accept(fd, bytes) => AcceptMirrors(w, v, fd, bytes);
    case Register => RegisterMirrors(w, v);
    case Notify => NotifyMirrors(w, v);
    case Remove => RemoveMirrors(w, v);
    case _ => WorkMirrors(w, v, step);
  }

  lemma {:induction false} RegisterMirrors(w: World, v: World)
    requires w.shards != [] && Mirrors(w, v) && Enabled(w, Register)
    ensures Enabled(v, Register) && Mirrors(Apply(w, Register), Apply(v, Register))
  {
    hide SameTraffic;
    var r, q := Apply(w, Register), Apply(v, Register);
    assert forall fd :: HasSession(r, fd) <==> HasSession(w, fd);
    assert forall fd :: HasSession(q, fd) <==> HasSession(v, fd);
    assert forall fd :: HasSession(r, fd) ==> SessionOf(r, fd) == SessionOf(w, fd);
    assert forall fd :: HasSession(q, fd) ==> SessionOf(q, fd) == SessionOf(v, fd);
  }

  lemma {:induction false} WorkMirrors(w: World, v: World, step: Step)
    requires w.shards != [] && Inv(w) && Mirrors(w, v) && Enabled(w, step) && !IsMainStep(step)
    ensures Mirrors(Apply(w, step), v)
  {
    WorkKeepsTraffic(w, step);
    hide Apply, Enabled, Inv, HasSession, SessionOf, Concat;
    var r := Apply(w, step);
    forall fd | HasSession(r, fd)
      ensures SameTraffic(SessionOf(r, fd), SessionOf(v, fd))
    {
      assert SameTraffic(SessionOf(w, fd), SessionOf(r, fd)) && SameTraffic(SessionOf(w, fd), SessionOf(v, fd));
    }
  }

  // For every run of main thread, kernel and n workers, disconnects included, the single-threaded
  // server can run on the same batches, accepts and arrivals; it has the same clients at any time,
  // with the same bytes and notices.
  lemma {:induction false} ErasedRunMirrors(w: World, v: World, steps: seq<Step>)
    requires w.shards != [] && Inv(w) && Mirrors(w, v) && Legal(w, steps)
    ensures v.shards != [] && SingleLegal(v, Erase(steps)) && Mirrors(After(w, steps), SingleAfter(v, Erase(steps)))
    decreases |steps|
  {
    hide Inv, Apply, SingleApply, Enabled, Mirrors, IsMainStep;
    assert v.shards != [] by { MirrorIsIdle(w, v); }
    if steps != [] {
      var step, more := steps[0], Erase(steps[1..]);
      StepMirrors(w, v, step);
      StepKeepsInv(w, step);
      if IsMainStep(step) {
        ErasedRunMirrors(Apply(w, step), SingleApply(v, step), steps[1..]);
        assert ([step] + more)[0] == step && ([step] + more)[1..] == more;
      } else {
        ErasedRunMirrors(Apply(w, step), v, steps[1..]);
        assert [] + more == more;
      }
    }
  }

  lemma MirrorIsIdle(w: World, v: World)
    requires w.shards != [] && Mirrors(w, v)
    ensures v.shards != [] && OneIdleThread(v)
  {
  }

  lemma StartsMirror(n: nat, reserved: set<Fd>, protocol: Protocol)
    requires n > 0
    ensures Mirrors(Start(n, reserved, protocol), Start(1, reserved, protocol))
  {
  }

  lemma {:induction false} DrainedInBoth(w: World, v: World, fd: Fd)
    requires w.shards != [] && Mirrors(w, v) && Drained(w, fd)
    ensures v.shards != [] && Drained(v, fd) && SameTraffic(SessionOf(w, fd), SessionOf(v, fd))
  {
  }

  lemma {:induction false} AllSent(n: nat, reserved: set<Fd>, protocol: Protocol, steps: seq<Step>, fd: Fd)
    requires n > 0 && Legal(Start(n, reserved, protocol), steps)
    requires Drained(After(Start(n, reserved, protocol), steps), fd)
    ensures var s := SessionOf(After(Start(n, reserved, protocol), steps), fd); s.sent == Sent(protocol, s.received)
  {
    hide Inv, Legal, After, Credits, Sent;
    var w := Start(n, reserved, protocol);
    StartIsInv(n, reserved, protocol);
    assert Answered(w);
    RunKeepsAnswered(w, steps);
    assert AnsweredIn(SessionOf(After(w, steps), fd), false, protocol);
  }

  // In any interleaving with any number of workers, a drained session with sustainable notices
  // has consumed the very bytes that the single-threaded server consumes on the same batches; and
  // if its replies depend on the byte stream alone, it has sent the very bytes.
  lemma {:induction false} MultiEqualsSingle(n: nat, reserved: set<Fd>, protocol: Protocol, steps: seq<Step>, fd: Fd)
    requires n > 0 && Legal(Start(n, reserved, protocol), steps)
    requires Drained(After(Start(n, reserved, protocol), steps), fd)
    requires Sustainable(SessionOf(After(Start(n, reserved, protocol), steps), fd).notices)
    ensures var v := SingleAfter(Start(1, reserved, protocol), Erase(steps));
            && SingleLegal(Start(1, reserved, protocol), Erase(steps))
            && HasSession(v, fd)
            && var s, t := SessionOf(After(Start(n, reserved, protocol), steps), fd), SessionOf(v, fd);
            && s.unread == "" && t.unread == ""
            && Consumed(s) == Consumed(t)
            && s.sent == Sent(protocol, s.received) && t.sent == Sent(protocol, t.received)
            && (ChunkFree(protocol) ==> Concat(s.sent) == Concat(t.sent))
  {
    hide Inv, Legal, SingleLegal, After, SingleAfter, Mirrors, Drained, Sustainable, ChunkFree, SessionOf, HasSession;
    var w, v := Start(n, reserved, protocol), Start(1, reserved, protocol);
    var r, q := After(w, steps), SingleAfter(v, Erase(steps));
    StartIsInv(n, reserved, protocol);
    StartIsInv(1, reserved, protocol);
    StartsMirror(n, reserved, protocol);
    ErasedRunMirrors(w, v, steps);
    DrainedInBoth(r, q, fd);
    SingleRunIsMultiRun(v, Erase(steps));
    HasSessionWhenDrained(r, fd);
    HasSessionWhenDrained(q, fd);
    DrainedMeansRead(r, n, reserved, protocol, steps, fd);
    DrainedMeansRead(q, 1, reserved, protocol, Expand(Erase(steps)), fd);
    AllSent(n, reserved, protocol, steps, fd);
    AllSent(1, reserved, protocol, Expand(Erase(steps)), fd);
    if ChunkFree(protocol) {
      SameStream(protocol, SessionOf(r, fd).received, SessionOf(q, fd).received);
    }
  }

  lemma HasSessionWhenDrained(w: World, fd: Fd)
    requires w.shards != [] && Drained(w, fd)
    ensures HasSession(w, fd)
  {
  }

  lemma SameStream(protocol: Protocol, a: seq<string>, b: seq<string>)
    requires ChunkFree(protocol) && Concat(a) == Concat(b)
    ensures Concat(Sent(protocol, a)) == Concat(Sent(protocol, b))
  {
  }

  // In particular LineSessions with the intended framing send the same responses.
  lemma {:induction false} LineSessionsAgree(n: nat, reserved: set<Fd>, process: L.Process, sep: string, keep: bool,
                                             steps: seq<Step>, fd: Fd)
    requires n > 0 && sep != ""
    requires var w := Start(n, reserved, LineProtocol(false, process, sep, keep));
             Legal(w, steps) && Drained(After(w, steps), fd) && Sustainable(SessionOf(After(w, steps), fd).notices)
    ensures var protocol := LineProtocol(false, process, sep, keep);
            var v := SingleAfter(Start(1, reserved, protocol), Erase(steps));
            && HasSession(v, fd)
            && Concat(SessionOf(After(Start(n, reserved, protocol), steps), fd).sent) == Concat(SessionOf(v, fd).sent)
  {
    hide Legal, SingleLegal, After, SingleAfter, Drained, Sustainable, ChunkFree, SessionOf, HasSession, LineProtocol;
    LinesAreChunkFree(process, sep, keep);
    MultiEqualsSingle(n, reserved, LineProtocol(false, process, sep, keep), steps, fd);
  }

  // LineSessions as they are written do so when no read completes a line shorter than the line
  // before it in the same read.
  lemma {:induction false} WrittenLineSessionsAgree(n: nat, reserved: set<Fd>, process: L.Process, sep: string, keep: bool,
                                                    steps: seq<Step>, fd: Fd)
    requires n > 0 && sep != ""
    requires var w := Start(n, reserved, LineProtocol(true, process, sep, keep));
             Legal(w, steps) && Drained(After(w, steps), fd) && Sustainable(SessionOf(After(w, steps), fd).notices)
    ensures var protocol := LineProtocol(true, process, sep, keep);
            var s, v := SessionOf(After(Start(n, reserved, protocol), steps), fd),
                        SingleAfter(Start(1, reserved, protocol), Erase(steps));
            && HasSession(v, fd)
            && ((forall c <- L.IntendedRun("", s.received, sep) :: NonDecreasing(c.lines))
                && (forall c <- L.IntendedRun("", SessionOf(v, fd).received, sep) :: NonDecreasing(c.lines))
                ==> Concat(s.sent) == Concat(SessionOf(v, fd).sent))
  {
    hide Legal, SingleLegal, After, SingleAfter, Drained, Sustainable, SessionOf, HasSession, LineProtocol, NonDecreasing;
    var protocol := LineProtocol(true, process, sep, keep);
    MultiEqualsSingle(n, reserved, protocol, steps, fd);
    HasSessionWhenDrained(After(Start(n, reserved, protocol), steps), fd);
    var s := SessionOf(After(Start(n, reserved, protocol), steps), fd);
    var t := SessionOf(SingleAfter(Start(1, reserved, protocol), Erase(steps)), fd);
    if (forall c <- L.IntendedRun("", s.received, sep) :: NonDecreasing(c.lines))
       && (forall c <- L.IntendedRun("", t.received, sep) :: NonDecreasing(c.lines)) {
      WrittenReplies(process, sep, keep, s.received);
      WrittenReplies(process, sep, keep, t.received);
      LinesAreChunkFree(process, sep, keep);
      SameStream(LineProtocol(false, process, sep, keep), s.received, t.received);
    }
  }
}
