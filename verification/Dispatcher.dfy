// The server as a step system: a main thread that turns poll batches into notices, n worker
// threads that drain them under the lock of their shard, a kernel that delivers bytes and reuses
// descriptors. Everything a worker does between taking and releasing its lock is split into
// steps, so that the kernel, the main thread and the other workers can act in between.
module Dispatcher {
  import opened Common

  type Fd = nat

  const RECV_BUF_SZ := 16 * 1024
  const EVENT_BUFFER_SZ := 64

  // A connection and its session. `unread` are the bytes the kernel holds, `received` what each recv
  // has returned and `seen` how many bytes of the stream had arrived by then, `notices` how many
  // had arrived at each edge notice, `sent` the reply to each iteration that has ended.
  datatype Session = Session(id: nat, unread: string, received: seq<string>, seen: seq<nat>,
                             notices: seq<nat>, sent: seq<string>)

  // What a session sends in an iteration, given all its reads up to that of the iteration.
  type Protocol = seq<string> -> string

  function NewSession(id: nat, bytes: string): Session {
    Session(id, bytes, [], [], [], [])
  }

  function Consumed(s: Session): string {
    Concat(s.received)
  }

  function Arrived(s: Session): string {
    Consumed(s) + s.unread
  }

  // One recv: at most RECV_BUF_SZ bytes, none when there are none.
  function Recv(s: Session): Session {
    var k := Min(RECV_BUF_SZ, |s.unread|);
    s.(received := s.received + [s.unread[..k]], unread := s.unread[k..], seen := s.seen + [|Arrived(s)|])
  }

  // What the thread that holds the shard's lock is doing; Idle means the lock is free.
  datatype Phase = Idle | Reading(fd: Fd) | Replying(fd: Fd)

  datatype Shard = Shard(queue: seq<Fd>, sessions: map<Fd, Session>, phase: Phase)

  function AddTo(t: Shard, fd: Fd, session: Session): Shard {
    t.(sessions := t.sessions[fd := session])
  }

  function RemoveFrom(t: Shard, fd: Fd): Shard {
    t.(sessions := t.sessions - {fd})
  }

  function Push(t: Shard, fd: Fd): Shard {
    t.(queue := t.queue + [fd])
  }

  // The worker pops a notice and looks its session up; an unknown descriptor is dropped.
  function TakeFrom(t: Shard): Shard {
    if t.queue == [] then t
    else t.(queue := t.queue[1..], phase := if t.queue[0] in t.sessions then Reading(t.queue[0]) else Idle)
  }

  function ReadIn(t: Shard): Shard {
    if t.phase.Reading? && t.phase.fd in t.sessions then
      t.(sessions := t.sessions[t.phase.fd := Recv(t.sessions[t.phase.fd])], phase := Replying(t.phase.fd))
    else t
  }

  function ReplyIn(t: Shard, protocol: Protocol): Shard {
    if t.phase.Replying? && t.phase.fd in t.sessions then
      var s := t.sessions[t.phase.fd];
      t.(sessions := t.sessions[t.phase.fd := s.(sent := s.sent + [protocol(s.received)])], phase := Idle)
    else t
  }

  datatype Event = NewClient | DataReady(fd: Fd) | Disconnected(fd: Fd)

  // `interest` is the epoll set, `batch` the events main has still to handle, `accepted` a client
  // whose session exists but that is not registered yet, `before` the session ids at the last
  // poll, `reserved` the descriptors of the server and of epoll, `open` the kernel's table of open
  // descriptors.
  datatype World = World(shards: seq<Shard>, interest: set<Fd>, batch: seq<Event>, accepted: Option<Fd>,
                         before: map<Fd, nat>, nextId: nat, reserved: set<Fd>, open: set<Fd>, protocol: Protocol)

  function Home(w: World, fd: Fd): (s: nat)
    requires w.shards != []
    ensures s < |w.shards|
  {
    fd % |w.shards|
  }

  predicate HasSession(w: World, fd: Fd)
    requires w.shards != []
  {
    fd in w.shards[Home(w, fd)].sessions
  }

  function SessionOf(w: World, fd: Fd): Session
    requires w.shards != [] && HasSession(w, fd)
  {
    w.shards[Home(w, fd)].sessions[fd]
  }

  function WithShard(w: World, fd: Fd, t: Shard): World
    requires w.shards != []
  {
    w.(shards := w.shards[Home(w, fd) := t])
  }

  datatype Step =
    | Arrive(fd: Fd, bytes: string)      // bytes reach the kernel
    | Poll(events: seq<Event>)           // Poller::wait
    | Accept(fd: Fd, bytes: string)      // NewClient: accept and add_session
    | Register                           // ... then add_client
    | Notify                             // ClientDataReady: data_available
    | Remove                             // ClientDisconnected: remove_session closes the descriptor
    | Take(shard: nat)                   // the worker wakes up, locks and pops
    | Read(shard: nat)                   // ... recv
    | Reply(shard: nat)                  // ... process, send, unlock

  // epoll names each descriptor at most once per wait, and only registered ones.
  ghost predicate ValidBatch(w: World, events: seq<Event>) {
    && |events| <= EVENT_BUFFER_SZ
    && (forall i, j :: 0 <= i < j < |events| && !events[i].NewClient? && !events[j].NewClient? ==> events[i].fd != events[j].fd)
    && (forall e <- events :: !e.NewClient? ==> e.fd in w.interest)
  }

  ghost predicate Enabled(w: World, step: Step)
    requires w.shards != []
  {
    var ready := w.batch != [] && w.accepted.None?;
    match step
    case Arrive(fd, _) => HasSession(w, fd)
    case Poll(events) => w.batch == [] && w.accepted.None? && ValidBatch(w, events)
    case Accept(fd, _) =>
      && ready && w.batch[0].NewClient?
      && fd !in w.open   // the kernel never returns an open descriptor
      && w.shards[Home(w, fd)].phase.Idle?
    case Register => w.accepted.Some?
    case Notify => ready && w.batch[0].DataReady? && w.shards[Home(w, w.batch[0].fd)].phase.Idle?
    case Remove => ready && w.batch[0].Disconnected? && w.shards[Home(w, w.batch[0].fd)].phase.Idle?
    case Take(s) => s < |w.shards| && w.shards[s].phase.Idle?
    case Read(s) => s < |w.shards| && w.shards[s].phase.Reading?
    case Reply(s) => s < |w.shards| && w.shards[s].phase.Replying?
  }

  function Announce(t: Shard, events: seq<Event>): Shard {
    t.(sessions := map fd | fd in t.sessions ::
         var s := t.sessions[fd];
         if DataReady(fd) in events then s.(notices := s.notices + [|Arrived(s)|]) else s)
  }

  function Ids(w: World): map<Fd, nat>
    requires w.shards != []
  {
    map fd | fd in w.interest && HasSession(w, fd) :: SessionOf(w, fd).id
  }

  function Dropped(events: seq<Event>): set<Fd> {
    set e <- events | e.Disconnected? :: e.fd
  }

  function Apply(w: World, step: Step): (r: World)
    requires w.shards != []
    ensures |r.shards| == |w.shards| && r.reserved == w.reserved && r.protocol == w.protocol
  {
    match step
    case Arrive(fd, bytes) =>
      if !HasSession(w, fd) then w
      else
        var s := SessionOf(w, fd);
        WithShard(w, fd, AddTo(w.shards[Home(w, fd)], fd, s.(unread := s.unread + bytes)))
    case Poll(events) =>
      w.(shards := seq(|w.shards|, i requires 0 <= i < |w.shards| => Announce(w.shards[i], events)),
         interest := w.interest - Dropped(events), batch := events, before := Ids(w))
    case Accept(fd, bytes) =>
      if w.batch == [] then w
      else
        WithShard(w, fd, AddTo(w.shards[Home(w, fd)], fd, NewSession(w.nextId, bytes)))
          .(nextId := w.nextId + 1, batch := w.batch[1..], accepted := Some(fd), open := w.open + {fd})
    case Register =>
      if w.accepted.None? then w else w.(interest := w.interest + {w.accepted.value}, accepted := None)
    case Notify =>
      if w.batch == [] || !w.batch[0].DataReady? then w
      else WithShard(w, w.batch[0].fd, Push(w.shards[Home(w, w.batch[0].fd)], w.batch[0].fd)).(batch := w.batch[1..])
    case Remove =>
      if w.batch == [] || !w.batch[0].Disconnected? then w
      else
        var fd := w.batch[0].fd;
        WithShard(w, fd, RemoveFrom(w.shards[Home(w, fd)], fd))
          .(batch := w.batch[1..], open := if HasSession(w, fd) then w.open - {fd} else w.open)
    case Take(s) => if s < |w.shards| then w.(shards := w.shards[s := TakeFrom(w.shards[s])]) else w
    case Read(s) => if s < |w.shards| then w.(shards := w.shards[s := ReadIn(w.shards[s])]) else w
    case Reply(s) => if s < |w.shards| then w.(shards := w.shards[s := ReplyIn(w.shards[s], w.protocol)]) else w
  }

  function Start(n: nat, reserved: set<Fd>, protocol: Protocol): World {
    World(seq(n, _ => Shard([], map[], Idle)), {}, [], None, map[], 0, reserved, reserved, protocol)
  }

  ghost predicate Legal(w: World, steps: seq<Step>)
    requires w.shards != []
    decreases |steps|
  {
    steps == [] || (Enabled(w, steps[0]) && Legal(Apply(w, steps[0]), steps[1..]))
  }

  function After(w: World, steps: seq<Step>): (r: World)
    requires w.shards != []
    ensures |r.shards| == |w.shards| && r.reserved == w.reserved && r.protocol == w.protocol
    decreases |steps|
  {
    if steps == [] then w else After(Apply(w, steps[0]), steps[1..])
  }

  // ---- What holds in every reachable state ----

  // Sessions, notices and running iterations of a descriptor are only in its home shard, and an
  // iteration only runs on a session that is there.
  ghost predicate ShardOk(t: Shard, i: nat, n: nat)
    requires n > 0
  {
    && (forall fd <- t.sessions :: fd % n == i)
    && (forall fd <- t.queue :: fd % n == i)
    && (!t.phase.Idle? ==> t.phase.fd in t.sessions)
  }

  ghost predicate Sharded(w: World) {
    && w.shards != []
    && forall i :: 0 <= i < |w.shards| ==> ShardOk(w.shards[i], i, |w.shards|)
  }

  // The clients of the epoll set, the client being set up and those a pending event disconnects
  // are exactly those that own a session; a pending event is about a session of the last poll.
  ghost predicate Tracked(w: World)
    requires w.shards != []
  {
    && (forall fd :: HasSession(w, fd) <==> fd in w.interest || w.accepted == Some(fd) || Disconnected(fd) in w.batch)
    && (forall fd <- w.interest :: w.accepted != Some(fd) && Disconnected(fd) !in w.batch)
    && (w.accepted.Some? ==> Disconnected(w.accepted.value) !in w.batch && DataReady(w.accepted.value) !in w.batch)
    && (forall fd :: DataReady(fd) in w.batch ==> fd in w.interest)
    && (forall i, j :: 0 <= i < j < |w.batch| && !w.batch[i].NewClient? && !w.batch[j].NewClient? ==> w.batch[i].fd != w.batch[j].fd)
    && (forall e <- w.batch :: !e.NewClient? ==> HasSession(w, e.fd) && e.fd in w.before && SessionOf(w, e.fd).id == w.before[e.fd])
    && w.reserved <= w.open
    && (forall fd :: HasSession(w, fd) <==> fd in w.open && fd !in w.reserved)
    && (forall fd :: HasSession(w, fd) ==> SessionOf(w, fd).id < w.nextId)
  }

  ghost predicate Inv(w: World) {
    Sharded(w) && Tracked(w)
  }

  lemma {:induction false} StartIsInv(n: nat, reserved: set<Fd>, protocol: Protocol)
    requires n > 0
    ensures Inv(Start(n, reserved, protocol))
  {
  }

  lemma {:induction false} TakeKeepsOk(t: Shard, i: nat, n: nat, protocol: Protocol)
    requires n > 0 && ShardOk(t, i, n)
    ensures ShardOk(TakeFrom(t), i, n) && ShardOk(ReadIn(t), i, n) && ShardOk(ReplyIn(t, protocol), i, n)
  {
    if t.queue != [] {
      assert forall fd <- t.queue[1..] :: fd in t.queue;
      assert t.queue[0] in t.queue;
    }
  }

  lemma {:induction false} PushKeepsOk(t: Shard, i: nat, n: nat, fd: Fd, s: Session)
    requires n > 0 && ShardOk(t, i, n) && fd % n == i
    ensures ShardOk(AddTo(t, fd, s), i, n) && ShardOk(Push(t, fd), i, n)
    ensures t.phase.Idle? ==> ShardOk(RemoveFrom(t, fd), i, n)
  {
  }

  lemma {:induction false} StepKeepsSharded(w: World, step: Step)
    requires Sharded(w) && Enabled(w, step)
    ensures Sharded(Apply(w, step))
  {
    hide ShardOk, ValidBatch, AddTo, RemoveFrom, Push, TakeFrom, ReadIn, ReplyIn;
    var n := |w.shards|;
    match step
    case Arrive(fd, bytes) =>
      var s := SessionOf(w, fd);
      PushKeepsOk(w.shards[Home(w, fd)], Home(w, fd), n, fd, s.(unread := s.unread + bytes));
    case Poll(events) =>
      forall i | 0 <= i < n
        ensures ShardOk(Announce(w.shards[i], events), i, n)
      {
        AnnounceKeepsOk(w.shards[i], i, n, events);
      }
    case Accept(fd, bytes) =>
      PushKeepsOk(w.shards[Home(w, fd)], Home(w, fd), n, fd, NewSession(w.nextId, bytes));
    case Register =>
    case Notify =>
      var fd := w.batch[0].fd;
      PushKeepsOk(w.shards[Home(w, fd)], Home(w, fd), n, fd, NewSession(0, ""));
    case Remove =>
      var fd := w.batch[0].fd;
      PushKeepsOk(w.shards[Home(w, fd)], Home(w, fd), n, fd, NewSession(0, ""));
    case Take(s) => TakeKeepsOk(w.shards[s], s, n, w.protocol);
    case Read(s) => TakeKeepsOk(w.shards[s], s, n, w.protocol);
    case Reply(s) => TakeKeepsOk(w.shards[s], s, n, w.protocol);
  }

  lemma {:induction false} AnnounceKeepsOk(t: Shard, i: nat, n: nat, events: seq<Event>)
    requires n > 0 && ShardOk(t, i, n)
    ensures ShardOk(Announce(t, events), i, n)
  {
  }

  // The same connections, whatever was read or announced.
  ghost predicate SameIdsIn(t: Shard, u: Shard) {
    && t.sessions.Keys == u.sessions.Keys
    && forall fd <- t.sessions :: t.sessions[fd].id == u.sessions[fd].id
  }

  ghost predicate SameIds(v: World, w: World) {
    && |v.shards| == |w.shards|
    && forall i :: 0 <= i < |v.shards| ==> SameIdsIn(v.shards[i], w.shards[i])
  }

  lemma {:induction false} WorkKeepsIds(t: Shard, events: seq<Event>, fd: Fd, protocol: Protocol)
    ensures SameIdsIn(t, TakeFrom(t)) && SameIdsIn(t, ReadIn(t)) && SameIdsIn(t, ReplyIn(t, protocol))
    ensures SameIdsIn(t, Announce(t, events)) && SameIdsIn(t, Push(t, fd))
  {
  }

  lemma {:induction false} QuietSteps(w: World, step: Step)
    requires w.shards != [] && Enabled(w, step) && !step.Accept? && !step.Remove?
    ensures SameIds(w, Apply(w, step))
  {
    hide TakeFrom, ReadIn, ReplyIn, Announce, Push, ValidBatch;
    match step
    case Arrive(fd, bytes) =>
    case Poll(events) =>
      forall i | 0 <= i < |w.shards|
        ensures SameIdsIn(w.shards[i], Announce(w.shards[i], events))
      {
        WorkKeepsIds(w.shards[i], events, 0, w.protocol);
      }
    case Register =>
    case Notify => WorkKeepsIds(w.shards[Home(w, w.batch[0].fd)], [], w.batch[0].fd, w.protocol);
    case Take(s) => WorkKeepsIds(w.shards[s], [], 0, w.protocol);
    case Read(s) => WorkKeepsIds(w.shards[s], [], 0, w.protocol);
    case Reply(s) => WorkKeepsIds(w.shards[s], [], 0, w.protocol);
  }

  lemma {:induction false} SameIdsEverywhere(v: World, w: World)
    requires v.shards != [] && SameIds(v, w)
    ensures forall fd :: HasSession(v, fd) <==> HasSession(w, fd)
    ensures forall fd :: HasSession(v, fd) ==> SessionOf(v, fd).id == SessionOf(w, fd).id
  {
    forall fd
      ensures HasSession(v, fd) <==> HasSession(w, fd)
      ensures HasSession(v, fd) ==> SessionOf(v, fd).id == SessionOf(w, fd).id
    {
      assert SameIdsIn(v.shards[Home(v, fd)], w.shards[Home(v, fd)]);
    }
  }

  lemma {:induction false} TrackedUnderSameIds(v: World, w: World)
    requires v.shards != [] && Tracked(v) && SameIds(v, w)
    requires w.interest == v.interest && w.batch == v.batch && w.accepted == v.accepted
    requires w.before == v.before && w.nextId == v.nextId && w.reserved == v.reserved && w.open == v.open
    ensures Tracked(w)
  {
    hide HasSession, SessionOf;
    SameIdsEverywhere(v, w);
  }

  lemma {:induction false} PollKeepsTracked(w: World, events: seq<Event>)
    requires Inv(w) && Enabled(w, Poll(events))
    ensures Tracked(Apply(w, Poll(events)))
  {
    hide HasSession, SessionOf, Announce;
    QuietSteps(w, Poll(events));
    SameIdsEverywhere(w, Apply(w, Poll(events)));
    assert forall fd :: fd in Dropped(events) <==> Disconnected(fd) in events;
    assert forall fd :: DataReady(fd) in events ==> Disconnected(fd) !in events;
  }

  lemma {:induction false} AcceptAddsOne(w: World, fd: Fd, bytes: string)
    requires w.shards != [] && Enabled(w, Accept(fd, bytes))
    ensures var r := Apply(w, Accept(fd, bytes));
            && (forall f :: HasSession(r, f) <==> f == fd || HasSession(w, f))
            && (forall f :: f != fd && HasSession(w, f) ==> SessionOf(r, f) == SessionOf(w, f))
            && SessionOf(r, fd) == NewSession(w.nextId, bytes)
  {
  }

  lemma {:induction false} RemoveDropsOne(w: World)
    requires w.shards != [] && Enabled(w, Remove)
    ensures var r, fd := Apply(w, Remove), w.batch[0].fd;
            && (forall f :: HasSession(r, f) <==> f != fd && HasSession(w, f))
            && (forall f :: HasSession(r, f) ==> SessionOf(r, f) == SessionOf(w, f))
  {
  }

  // The rest of a batch after its first event.
  lemma {:induction false} BatchTail(w: World)
    requires w.shards != [] && w.batch != []
    ensures forall e :: e in w.batch <==> e == w.batch[0] || e in w.batch[1..]
    ensures Tracked(w) && !w.batch[0].NewClient? ==>
              forall e <- w.batch[1..] :: !e.NewClient? ==> e.fd != w.batch[0].fd
  {
    if Tracked(w) && !w.batch[0].NewClient? {
      forall e | e in w.batch[1..] && !e.NewClient?
        ensures e.fd != w.batch[0].fd
      {
        var i :| 0 <= i < |w.batch[1..]| && w.batch[1..][i] == e;
        assert w.batch[i + 1] == e;
      }
    }
  }

  // A descriptor that is not open belongs to no live session and to no event still to be handled,
  // also when it was closed by an earlier event of the same batch.
  lemma {:induction false} AcceptIsFresh(w: World, fd: Fd, bytes: string)
    requires Inv(w) && Enabled(w, Accept(fd, bytes))
    ensures !HasSession(w, fd) && fd !in w.interest
    ensures forall e <- w.batch :: !e.NewClient? ==> e.fd != fd
  {
    hide SessionOf;
    assert HasSession(w, fd) <==> fd in w.interest || w.accepted == Some(fd) || Disconnected(fd) in w.batch;
  }

  lemma {:induction false} AcceptKeepsTracked(w: World, fd: Fd, bytes: string)
    requires Inv(w) && Enabled(w, Accept(fd, bytes))
    ensures Tracked(Apply(w, Accept(fd, bytes)))
  {
    AcceptIsFresh(w, fd, bytes);
    AcceptAddsOne(w, fd, bytes);
    BatchTail(w);
    hide HasSession, SessionOf, AddTo;
    var r := Apply(w, Accept(fd, bytes));
    assert forall i :: 0 <= i < |r.batch| ==> r.batch[i] == w.batch[i + 1];
  }

  lemma {:induction false} HandledKeepsTracked(w: World, step: Step)
    requires Inv(w) && Enabled(w, step) && (step.Notify? || step.Remove?)
    ensures Tracked(Apply(w, step))
  {
    var r := Apply(w, step);
    BatchTail(w);
    assert forall i :: 0 <= i < |r.batch| ==> r.batch[i] == w.batch[i + 1];
    if step.Remove? {
      RemoveDropsOne(w);
    } else {
      QuietSteps(w, step);
      SameIdsEverywhere(w, r);
    }
    hide HasSession, SessionOf, RemoveFrom, Push;
  }

  lemma {:induction false} RegisterKeepsTracked(w: World)
    requires Inv(w) && Enabled(w, Register)
    ensures Tracked(Apply(w, Register))
  {
    hide SessionOf, HasSession;
    QuietSteps(w, Register);
    SameIdsEverywhere(w, Apply(w, Register));
  }

  lemma {:induction false} StepKeepsInv(w: World, step: Step)
    requires Inv(w) && Enabled(w, step)
    ensures Inv(Apply(w, step))
  {
    hide Tracked, Enabled, ShardOk, HasSession, SessionOf;
    StepKeepsSharded(w, step);
    match step
    case Poll(events) => PollKeepsTracked(w, events);
    case Accept(fd, bytes) => AcceptKeepsTracked(w, fd, bytes);
    case Register => RegisterKeepsTracked(w);
    case Notify => HandledKeepsTracked(w, step);
    case Remove => HandledKeepsTracked(w, step);
    case _ =>
      QuietSteps(w, step);
      TrackedUnderSameIds(w, Apply(w, step));
  }

  // Every run, whatever the interleaving.
  lemma {:induction false} RunKeepsInv(w: World, steps: seq<Step>)
    requires Inv(w) && Legal(w, steps)
    ensures Inv(After(w, steps))
    decreases |steps|
  {
    hide Tracked, Enabled, ShardOk;
    if steps != [] {
      StepKeepsInv(w, steps[0]);
      RunKeepsInv(Apply(w, steps[0]), steps[1..]);
    }
  }

  ghost predicate Reachable(w: World, n: nat, reserved: set<Fd>, protocol: Protocol, steps: seq<Step>) {
    n > 0 && Legal(Start(n, reserved, protocol), steps) && w == After(Start(n, reserved, protocol), steps)
  }

  // The descriptors with a session are the open ones but for the server's own; between batches
  // they are exactly the registered clients. In a batch, every pending client event names a
  // session that existed when the batch was polled, and whatever descriptor the kernel hands out
  // next overwrites no live session and is named by no pending event, reused or not.
  lemma {:induction false} RegisteredClientsOwnSessions(w: World, n: nat, reserved: set<Fd>, protocol: Protocol,
      steps: seq<Step>)
    requires Reachable(w, n, reserved, protocol, steps)
    ensures w.shards != []
    ensures forall fd :: HasSession(w, fd) <==> fd in w.open && fd !in reserved
    ensures w.batch == [] && w.accepted == None ==> forall fd :: HasSession(w, fd) <==> fd in w.interest
    ensures forall e <- w.batch :: !e.NewClient? ==>
              HasSession(w, e.fd) && e.fd in w.before && SessionOf(w, e.fd).id == w.before[e.fd]
    ensures forall fd, bytes :: Enabled(w, Accept(fd, bytes)) ==>
              !HasSession(w, fd) && fd !in w.interest && forall e <- w.batch :: !e.NewClient? ==> e.fd != fd
  {
    hide Enabled, SessionOf;
    StartIsInv(n, reserved, protocol);
    RunKeepsInv(Start(n, reserved, protocol), steps);
    forall fd, bytes | Enabled(w, Accept(fd, bytes))
      ensures !HasSession(w, fd) && fd !in w.interest && forall e <- w.batch :: !e.NewClient? ==> e.fd != fd
    {
      AcceptIsFresh(w, fd, bytes);
    }
  }

  // A descriptor's session, notices and iterations are only ever in its home shard; so at most
  // one thread is inside an iteration of a session, and no session is removed meanwhile.
  lemma {:induction false} IterationsDoNotOverlap(w: World, n: nat, reserved: set<Fd>, protocol: Protocol,
      steps: seq<Step>)
    requires Reachable(w, n, reserved, protocol, steps)
    ensures |w.shards| == n
    ensures forall i, fd :: 0 <= i < n && (fd in w.shards[i].sessions || fd in w.shards[i].queue) ==> fd % n == i
    ensures forall i, j | 0 <= i < n && 0 <= j < n && !w.shards[i].phase.Idle? && !w.shards[j].phase.Idle? ::
              w.shards[i].phase.fd == w.shards[j].phase.fd ==> i == j
    ensures Enabled(w, Remove) ==>
              forall i :: 0 <= i < n && !w.shards[i].phase.Idle? ==> w.shards[i].phase.fd != w.batch[0].fd
  {
    StartIsInv(n, reserved, protocol);
    RunKeepsInv(Start(n, reserved, protocol), steps);
    hide Tracked, ValidBatch;
    forall i | 0 <= i < n && !w.shards[i].phase.Idle?
      ensures w.shards[i].phase.fd % n == i
    {
      assert ShardOk(w.shards[i], i, n);
    }
    forall i, fd | 0 <= i < n && (fd in w.shards[i].sessions || fd in w.shards[i].queue)
      ensures fd % n == i
    {
      assert ShardOk(w.shards[i], i, n);
    }
  }
}
