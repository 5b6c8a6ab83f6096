// A run of the system in which a notice announces more than one recv can read.
module LargeNotice {
  import opened Common
  import opened Dispatcher
  import opened Coverage
  import opened Refinement

  lemma OneSingleStep(w: World, step: Step, more: seq<Step>)
    requires w.shards != [] && IsMainStep(step) && Enabled(w, step)
    ensures SingleLegal(w, [step] + more) <==> SingleLegal(SingleApply(w, step), more)
    ensures SingleAfter(w, [step] + more) == SingleAfter(SingleApply(w, step), more)
  {
    hide SingleApply, Enabled;
    assert ([step] + more)[1..] == more;
  }

  // A client that connects with more than RECV_BUF_SZ bytes waiting: its notice is handled and
  // everything has been announced, but what does not fit into the first buffer stays unread, in
  // the single-threaded server and in the same run with a worker.
  lemma {:induction false} BytesStayBehind(bytes: string, protocol: Protocol)
    requires |bytes| > RECV_BUF_SZ
    ensures var steps := [Poll([NewClient]), Accept(5, bytes), Register, Poll([DataReady(5)]), Notify];
            var w := SingleAfter(Start(1, {3}, protocol), steps);
            && SingleLegal(Start(1, {3}, protocol), steps)
            && Legal(Start(1, {3}, protocol), Expand(steps)) && After(Start(1, {3}, protocol), Expand(steps)) == w
            && Drained(w, 5) && SessionOf(w, 5).notices == [|bytes|] && !Sustainable([|bytes|])
            && SessionOf(w, 5).unread == bytes[RECV_BUF_SZ..] != ""
  {
    hide Legal, After, Sustainable, SingleLegal, SingleAfter, SingleApply, Enabled, Start, Inv;
    var w, s := Start(1, {3}, protocol), NewSession(0, bytes);
    var t := s.(notices := [|bytes|]);
    var a := OneThread(map[], {}, [NewClient], None, 0, {3}, protocol);
    var b := OneThread(map[5 := s], {}, [], Some(5), 1, {3, 5}, protocol);
    var c := OneThread(map[5 := s], {5}, [], None, 1, {3, 5}, protocol);
    var d := OneThread(map[5 := t], {5}, [DataReady(5)], None, 1, {3, 5}, protocol).(before := map[5 := 0]);
    var r := SingleApply(d, Notify);
    ClientConnects(bytes, protocol);
    ClientIsAnnounced(bytes, protocol);
    NoticeReadsOnce(bytes, protocol);
    NoSingleSteps(r);
    var notify := [Notify] + [];
    var poll := [Poll([DataReady(5)])] + notify;
    var register := [Register] + poll;
    var accept := [Accept(5, bytes)] + register;
    var all := [Poll([NewClient])] + accept;
    assert all == [Poll([NewClient]), Accept(5, bytes), Register, Poll([DataReady(5)]), Notify];
    OneSingleStep(d, Notify, []);
    OneSingleStep(c, Poll([DataReady(5)]), notify);
    OneSingleStep(b, Register, poll);
    OneSingleStep(a, Accept(5, bytes), register);
    OneSingleStep(w, Poll([NewClient]), accept);
    StartIsInv(1, {3}, protocol);
    StartIsIdle(protocol);
    SingleRunIsMultiRun(w, all);
    assert Excess([|bytes|], 0) > 0;
    NotSustainable([|bytes|], 0);
  }

  function OneThread(sessions: map<Fd, Session>, interest: set<Fd>, batch: seq<Event>, accepted: Option<Fd>, nextId: nat,
                     open: set<Fd>, protocol: Protocol): World {
    World([Shard([], sessions, Idle)], interest, batch, accepted, map[], nextId, {3}, open, protocol)
  }

  lemma ClientConnects(bytes: string, protocol: Protocol)
    ensures var w, s := Start(1, {3}, protocol), NewSession(0, bytes);
            var a := OneThread(map[], {}, [NewClient], None, 0, {3}, protocol);
            var b := OneThread(map[5 := s], {}, [], Some(5), 1, {3, 5}, protocol);
            var c := OneThread(map[5 := s], {5}, [], None, 1, {3, 5}, protocol);
            && Enabled(w, Poll([NewClient])) && SingleApply(w, Poll([NewClient])) == a
            && Enabled(a, Accept(5, bytes)) && SingleApply(a, Accept(5, bytes)) == b
            && Enabled(b, Register) && SingleApply(b, Register) == c
  {
    var w, s := Start(1, {3}, protocol), NewSession(0, bytes);
    var a := OneThread(map[], {}, [NewClient], None, 0, {3}, protocol);
    assert SingleApply(w, Poll([NewClient])).shards == a.shards;
    assert Ids(w) == map[];
    assert Dropped([NewClient]) == {};
  }

  lemma ClientIsAnnounced(bytes: string, protocol: Protocol)
    ensures var s := NewSession(0, bytes);
            var c := OneThread(map[5 := s], {5}, [], None, 1, {3, 5}, protocol);
            var d := OneThread(map[5 := s.(notices := [|bytes|])], {5}, [DataReady(5)], None, 1, {3, 5}, protocol);
            Enabled(c, Poll([DataReady(5)])) && SingleApply(c, Poll([DataReady(5)])) == d.(before := map[5 := 0])
  {
    var s := NewSession(0, bytes);
    var c := OneThread(map[5 := s], {5}, [], None, 1, {3, 5}, protocol);
    assert Arrived(s) == bytes;
    assert s.notices + [|bytes|] == [|bytes|] && DataReady(5) in [DataReady(5)];
    assert Announce(c.shards[0], [DataReady(5)]).sessions == map[5 := s.(notices := [|bytes|])];
    assert Ids(c) == map[5 := 0];
    assert Dropped([DataReady(5)]) == {};
  }

  lemma NoticeReadsOnce(bytes: string, protocol: Protocol)
    requires |bytes| > RECV_BUF_SZ
    ensures var t := NewSession(0, bytes).(notices := [|bytes|]);
            var d := OneThread(map[5 := t], {5}, [DataReady(5)], None, 1, {3, 5}, protocol).(before := map[5 := 0]);
            var r := SingleApply(d, Notify);
            && Enabled(d, Notify) && Drained(r, 5) && SessionOf(r, 5).notices == [|bytes|]
            && SessionOf(r, 5).unread == bytes[RECV_BUF_SZ..] != ""
  {
    OneLargeRead(bytes, protocol);
    assert "" + bytes[RECV_BUF_SZ..] == bytes[RECV_BUF_SZ..];
    var first := bytes[..RECV_BUF_SZ];
    assert Concat([first]) == first + "" == first;
  }

  lemma StartIsIdle(protocol: Protocol)
    ensures Start(1, {3}, protocol).shards != [] && OneIdleThread(Start(1, {3}, protocol))
  {
  }

  lemma NoSingleSteps(w: World)
    requires w.shards != []
    ensures SingleLegal(w, []) && SingleAfter(w, []) == w
  {
  }

  lemma OneLargeRead(bytes: string, protocol: Protocol)
    requires |bytes| > RECV_BUF_SZ
    ensures var s := NewSession(0, bytes).(notices := [|bytes|]);
            Recv(s) == Session(0, bytes[RECV_BUF_SZ..], [bytes[..RECV_BUF_SZ]], [|bytes|], [|bytes|], [])
    ensures bytes[RECV_BUF_SZ..] != "" && bytes[..RECV_BUF_SZ] + bytes[RECV_BUF_SZ..] == bytes
  {
    assert "" + bytes == bytes;
  }

  lemma NotSustainable(notices: seq<nat>, j: nat)
    requires j <= |notices| && Excess(notices, j) > 0
    ensures !Sustainable(notices)
  {
  }
}
