// Edge-triggered polling with one bounded recv per notice: when no announced byte stays behind.
module Coverage {
  import opened Common
  import opened Dispatcher

  // ---- The exact condition, on the notices and reads of one session ----

  // In a list of totals, entry j is how many bytes had arrived at notice (or recv) number j.
  function Total(t: seq<nat>): nat {
    if t == [] then 0 else t[|t| - 1]
  }

  // Bytes read after one recv per entry.
  function ReadAfter(arrived: seq<nat>): nat {
    if arrived == [] then 0
    else Min(ReadAfter(arrived[..|arrived| - 1]) + RECV_BUF_SZ, Total(arrived))
  }

  // One recv per notice, each at any time after its notice.
  ghost predicate Schedule(notices: seq<nat>, arrived: seq<nat>) {
    |notices| == |arrived| && forall j :: 0 <= j < |notices| ==> notices[j] <= arrived[j]
  }

  // How far the notices from j on announce more than as many recvs can take.
  function Excess(notices: seq<nat>, j: nat): int
    requires j <= |notices|
  {
    Total(notices) - Total(notices[..j]) - RECV_BUF_SZ * (|notices| - j)
  }

  ghost predicate Sustainable(notices: seq<nat>) {
    forall j :: 0 <= j <= |notices| ==> Excess(notices, j) <= 0
  }

  lemma {:induction false} ExcessAppend(b: seq<nat>, x: nat, j: nat)
    requires j <= |b|
    ensures Excess(b + [x], j) == Excess(b, j) + x - Total(b) - RECV_BUF_SZ
  {
    assert (b + [x])[..j] == b[..j];
  }

  // What immediate recvs leave unread is the largest excess of any suffix of the notices.
  lemma {:induction false} EagerBacklog(t: seq<nat>)
    ensures forall j :: 0 <= j <= |t| ==> Excess(t, j) <= Total(t) - ReadAfter(t)
    ensures exists j :: 0 <= j <= |t| && Excess(t, j) == Total(t) - ReadAfter(t)
    decreases |t|
  {
    assert t[..|t|] == t;
    assert Excess(t, |t|) == 0;
    if t != [] {
      var b, x := t[..|t| - 1], t[|t| - 1];
      assert t == b + [x];
      EagerBacklog(b);
      hide Excess;
      forall j | 0 <= j <= |b|
        ensures Excess(t, j) == Excess(b, j) + x - Total(b) - RECV_BUF_SZ
      {
        ExcessAppend(b, x, j);
      }
      var j :| 0 <= j <= |b| && Excess(b, j) == Total(b) - ReadAfter(b);
      assert Excess(t, j) == Excess(b, j) + x - Total(b) - RECV_BUF_SZ;
    }
  }

  // Waiting never makes the recvs return less in total.
  lemma {:induction false} DelayReadsMore(notices: seq<nat>, arrived: seq<nat>)
    requires Schedule(notices, arrived)
    ensures ReadAfter(notices) <= ReadAfter(arrived)
    decreases |notices|
  {
    if notices != [] {
      var n := |notices| - 1;
      DelayReadsMore(notices[..n], arrived[..n]);
    }
  }

  // Neither do recvs before the first notice.
  lemma {:induction false} ExtraReadsReadMore(arrived: seq<nat>, k: nat)
    requires k <= |arrived|
    ensures ReadAfter(arrived[k..]) <= ReadAfter(arrived)
    decreases |arrived|
  {
    if k < |arrived| {
      var n := |arrived| - 1;
      ExtraReadsReadMore(arrived[..n], k);
      assert arrived[k..][..|arrived[k..]| - 1] == arrived[..n][k..];
    }
  }

  // Every schedule reads all announced bytes exactly when no run of notices up to the last one
  // announces more than RECV_BUF_SZ bytes for each of them.
  lemma {:induction false} AllReadIff(notices: seq<nat>)
    ensures (forall arrived :: Schedule(notices, arrived) ==> ReadAfter(arrived) >= Total(notices)) <==> Sustainable(notices)
  {
    EagerBacklog(notices);
    assert Schedule(notices, notices);
    forall arrived | Schedule(notices, arrived)
      ensures ReadAfter(arrived) >= ReadAfter(notices)
    {
      DelayReadsMore(notices, arrived);
    }
  }

  // In particular when each notice announces at most one buffer, for every prefix of the notices.
  lemma {:induction false} SmallNoticesAreSustainable(t: seq<nat>)
    requires forall j :: 0 <= j < |t| ==> t[j] <= Total(t[..j]) + RECV_BUF_SZ
    ensures Sustainable(t)
    decreases |t|
  {
    if t != [] {
      var b, x := t[..|t| - 1], t[|t| - 1];
      assert t == b + [x];
      assert forall j :: 0 <= j < |b| ==> b[..j] == t[..j];
      SmallNoticesAreSustainable(b);
      assert t[..|t|] == t;
      forall j | 0 <= j <= |b|
        ensures Excess(t, j) <= 0
      {
        ExcessAppend(b, x, j);
      }
    }
  }

  // ---- The sessions of the system ----

  // Notices of a descriptor that are still to be handled, from the batch to the worker's recv.
  function Credits(w: World, fd: Fd): nat
    requires w.shards != []
  {
    InShard(w.shards[Home(w, fd)], fd) + if DataReady(fd) in w.batch then 1 else 0
  }

  function InShard(t: Shard, fd: Fd): nat {
    multiset(t.queue)[fd] + if t.phase == Reading(fd) then 1 else 0
  }

  // Notices that were under way when the descriptor was reused, and are about an older session.
  function Stale(s: Session, credits: nat): int {
    |s.seen| + credits - |s.notices|
  }

  // The reads follow the notices: behind those for stale notices, recv number j comes after
  // notice number j, and together they have read what ReadAfter says.
  ghost predicate Follows(s: Session, credits: nat) {
    && |s.seen| == |s.received|
    && |Consumed(s)| == ReadAfter(s.seen)
    && (forall j :: 0 <= j < |s.notices| ==> s.notices[j] <= |Arrived(s)|)
    && Stale(s, credits) >= 0
    && forall j :: 0 <= j < |s.notices| && Stale(s, credits) + j < |s.seen| ==>
         s.notices[j] <= s.seen[Stale(s, credits) + j]
  }

  ghost predicate AllFollow(w: World)
    requires w.shards != []
  {
    forall fd :: HasSession(w, fd) ==> Follows(SessionOf(w, fd), Credits(w, fd))
  }

  lemma {:induction false} RecvFollows(s: Session, credits: nat)
    requires Follows(s, credits + 1)
    ensures Follows(Recv(s), credits) && Arrived(Recv(s)) == Arrived(s)
  {
    RecvKeepsArrived(s);
    var r := Recv(s);
    assert r.seen[..|r.seen| - 1] == s.seen;
    assert Stale(r, credits) == Stale(s, credits + 1);
  }

  lemma {:induction false} RecvKeepsArrived(s: Session)
    ensures Arrived(Recv(s)) == Arrived(s)
    ensures |Consumed(Recv(s))| == Min(|Consumed(s)| + RECV_BUF_SZ, |Arrived(s)|)
  {
    var k := Min(RECV_BUF_SZ, |s.unread|);
    ConcatAppend(s.received, s.unread[..k]);
    assert s.unread == s.unread[..k] + s.unread[k..];
  }

  lemma {:induction false} NoticeFollows(s: Session, credits: nat)
    requires Follows(s, credits)
    ensures Follows(s.(notices := s.notices + [|Arrived(s)|]), credits + 1)
  {
    hide ReadAfter, Concat;
    assert Arrived(s.(notices := s.notices + [|Arrived(s)|])) == Arrived(s);
  }

  lemma {:induction false} TakeMovesCredit(t: Shard, fd: Fd)
    requires fd in t.sessions && t.phase.Idle?
    ensures InShard(TakeFrom(t), fd) == InShard(t, fd)
  {
    if t.queue != [] {
      assert t.queue == [t.queue[0]] + t.queue[1..];
    }
  }

  // A step that neither reads from nor announces to a session keeps its history and its credits.
  ghost predicate Carries(w: World, r: World, fd: Fd)
    requires w.shards != [] && r.shards != []
  {
    && HasSession(w, fd) && HasSession(r, fd)
    && |Arrived(SessionOf(w, fd))| <= |Arrived(SessionOf(r, fd))|
    && SessionOf(r, fd).received == SessionOf(w, fd).received
    && SessionOf(r, fd).seen == SessionOf(w, fd).seen
    && SessionOf(r, fd).notices == SessionOf(w, fd).notices
    && Credits(r, fd) == Credits(w, fd)
  }

  lemma {:induction false} MainCarries(w: World, step: Step, fd: Fd)
    requires Inv(w) && Enabled(w, step) && (step.Notify? || step.Remove? || step.Register?)
    requires HasSession(Apply(w, step), fd)
    ensures Carries(w, Apply(w, step), fd)
  {
    hide Concat, ValidBatch;
    if !step.Register? {
      BatchTail(w);
    }
  }

  lemma {:induction false} KernelCarries(w: World, f: Fd, bytes: string, fd: Fd)
    requires Inv(w) && HasSession(w, f) && HasSession(w, fd)
    ensures Carries(w, Apply(w, Arrive(f, bytes)), fd)
  {
    hide Concat, Tracked;
  }

  lemma {:induction false} AcceptCarries(w: World, f: Fd, bytes: string, fd: Fd)
    requires Inv(w) && Enabled(w, Accept(f, bytes))
    requires HasSession(Apply(w, Accept(f, bytes)), fd) && fd != f
    ensures Carries(w, Apply(w, Accept(f, bytes)), fd)
  {
    hide Concat, Tracked;
    BatchTail(w);
    AcceptAddsOne(w, f, bytes);
  }

  lemma {:induction false} WorkerCarries(w: World, step: Step, fd: Fd)
    requires Inv(w) && Enabled(w, step) && (step.Take? || step.Reply?)
    requires HasSession(Apply(w, step), fd)
    ensures Carries(w, Apply(w, step), fd)
  {
    hide Concat, Tracked, ShardOk;
    var t := w.shards[Home(w, fd)];
    if step == Take(Home(w, fd)) {
      TakeMovesCredit(t, fd);
    }
  }

  lemma {:induction false} ReadFollows(w: World, s: nat, fd: Fd)
    requires Inv(w) && AllFollow(w) && Enabled(w, Read(s)) && HasSession(w, fd)
    ensures var r := Apply(w, Read(s)); HasSession(r, fd) && Follows(SessionOf(r, fd), Credits(r, fd))
  {
    hide Concat, Tracked, Recv, Follows;
    assert ShardOk(w.shards[s], s, |w.shards|);
    assert Follows(SessionOf(w, fd), Credits(w, fd));
    if w.shards[s].phase.fd == fd {
      RecvFollows(SessionOf(w, fd), Credits(w, fd) - 1);
    }
  }

  lemma {:induction false} PollFollows(w: World, events: seq<Event>, fd: Fd)
    requires Inv(w) && AllFollow(w) && Enabled(w, Poll(events)) && HasSession(w, fd)
    ensures var r := Apply(w, Poll(events)); HasSession(r, fd) && Follows(SessionOf(r, fd), Credits(r, fd))
  {
    hide Concat, Tracked, ValidBatch, Dropped, Ids, Follows;
    assert Follows(SessionOf(w, fd), Credits(w, fd));
    if DataReady(fd) in events {
      NoticeFollows(SessionOf(w, fd), Credits(w, fd));
    }
  }

  lemma CarriedFollows(w: World, r: World, fd: Fd)
    requires w.shards != [] && r.shards != [] && Carries(w, r, fd) && AllFollow(w)
    ensures Follows(SessionOf(r, fd), Credits(r, fd))
  {
    hide Concat, ReadAfter;
    assert Follows(SessionOf(w, fd), Credits(w, fd));
  }

  lemma {:induction false} StepKeepsFollowing(w: World, step: Step)
    requires Inv(w) && AllFollow(w) && Enabled(w, step)
    ensures AllFollow(Apply(w, step))
  {
    hide Tracked, ShardOk, Concat, ValidBatch, Credits, Follows, Carries;
    var r := Apply(w, step);
    forall fd | HasSession(r, fd)
      ensures Follows(SessionOf(r, fd), Credits(r, fd))
    {
      match step {
        case Poll(events) => PollFollows(w, events, fd);
        case Read(s) => ReadFollows(w, s, fd);
        case Arrive(f, bytes) => KernelCarries(w, f, bytes, fd);
        case Accept(f, bytes) =>
          AcceptAddsOne(w, f, bytes);
          if f != fd {
            AcceptCarries(w, f, bytes, fd);
          } else {
            NewFollows(w.nextId, bytes, Credits(r, fd));
          }
        case Take(_) => WorkerCarries(w, step, fd);
        case Reply(_) => WorkerCarries(w, step, fd);
        case _ => MainCarries(w, step, fd);
      }
      if Carries(w, r, fd) {
        CarriedFollows(w, r, fd);
      }
    }
  }

  lemma NewFollows(id: nat, bytes: string, credits: nat)
    ensures Follows(NewSession(id, bytes), credits)
  {
  }

  lemma {:induction false} RunKeepsFollowing(w: World, steps: seq<Step>)
    requires Inv(w) && AllFollow(w) && Legal(w, steps)
    ensures AllFollow(After(w, steps))
    decreases |steps|
  {
    hide Tracked, Enabled, ShardOk, AllFollow;
    if steps != [] {
      StepKeepsInv(w, steps[0]);
      StepKeepsFollowing(w, steps[0]);
      RunKeepsFollowing(Apply(w, steps[0]), steps[1..]);
    }
  }

  // The notices of a session whose reads have taken place.
  function Handled(s: Session, credits: nat): (r: seq<nat>) {
    if credits <= |s.notices| then s.notices[..|s.notices| - credits] else []
  }

  lemma {:induction false} FollowingReadsEnough(s: Session, credits: nat)
    requires Follows(s, credits)
    ensures ReadAfter(Handled(s, credits)) <= |Consumed(s)|
    ensures Sustainable(Handled(s, credits)) ==> Total(Handled(s, credits)) <= |Consumed(s)|
    ensures s.seen == s.notices ==> (Total(s.notices) == |Consumed(s)| <==> Sustainable(s.notices))
  {
    hide Concat;
    EagerBacklog(s.notices);
    if credits <= |s.notices| {
      var k := Stale(s, credits);
      ExtraReadsReadMore(s.seen, k);
      DelayReadsMore(Handled(s, credits), s.seen[k..]);
    }
    AllReadIff(Handled(s, credits));
    EagerBacklog(Handled(s, credits));
  }

  // In every reachable state, under any interleaving and any delay, a session has read at least
  // what immediate recvs for its handled notices would have read: all they announced when they
  // are sustainable. A session that read at once has read all if and only if they are.
  lemma {:induction false} HandledMeansRead(w: World, n: nat, reserved: set<Fd>, protocol: Protocol,
      steps: seq<Step>, fd: Fd)
    requires Reachable(w, n, reserved, protocol, steps) && HasSession(w, fd)
    ensures var s, handled := SessionOf(w, fd), Handled(SessionOf(w, fd), Credits(w, fd));
            && |Consumed(s)| == ReadAfter(s.seen)
            && ReadAfter(handled) <= |Consumed(s)|
            && (Sustainable(handled) ==> Total(handled) <= |Consumed(s)|)
            && (s.seen == s.notices ==> (Total(s.notices) == |Consumed(s)| <==> Sustainable(s.notices)))
  {
    StartIsInv(n, reserved, protocol);
    RunKeepsFollowing(Start(n, reserved, protocol), steps);
    assert Follows(SessionOf(w, fd), Credits(w, fd));
    FollowingReadsEnough(SessionOf(w, fd), Credits(w, fd));
  }

  // Everything that arrived was announced and no notice of the session is under way, nor a reply.
  predicate Drained(w: World, fd: Fd)
    requires w.shards != []
  {
    && HasSession(w, fd) && Credits(w, fd) == 0
    && Total(SessionOf(w, fd).notices) == |Arrived(SessionOf(w, fd))|
    && w.shards[Home(w, fd)].phase != Replying(fd)
  }

  // So draining the queues leaves no byte behind.
  lemma {:induction false} DrainedMeansRead(w: World, n: nat, reserved: set<Fd>, protocol: Protocol,
      steps: seq<Step>, fd: Fd)
    requires Reachable(w, n, reserved, protocol, steps) && Drained(w, fd)
    requires Sustainable(SessionOf(w, fd).notices)
    ensures SessionOf(w, fd).unread == "" && Consumed(SessionOf(w, fd)) == Arrived(SessionOf(w, fd))
  {
    HandledMeansRead(w, n, reserved, protocol, steps, fd);
    var s := SessionOf(w, fd);
    assert s.notices[..|s.notices|] == s.notices;
  }
}
