// The objects of the server: threads with their queue and session map, the thread manager, the
// poller and the main loop. Each method is proved to perform a step of the system in Dispatcher.
module Server {
  import opened Common
  import opened Dispatcher
  import opened Refinement

  // ::recv into a buffer of fixed size that is then resized to what arrived.
  method RecvCall(s: Session) returns (data: string, after: Session)
    ensures after == Recv(s)
    ensures data <= s.unread && |data| <= 16384 && after.received == s.received + [data]
    ensures data + after.unread == s.unread && (data == "" <==> s.unread == "")
    ensures after.unread != "" ==> |data| == 16384
  {
    var r := Min(RECV_BUF_SZ, |s.unread|);
    if r == 0 {
      data := "";
    } else {
      data := s.unread[..r];
    }
    after := s.(received := s.received + [data], unread := s.unread[r..], seen := s.seen + [|Arrived(s)|]);
  }

  class ThreadMulti {
    var queue: seq<Fd>
    var sessions: map<Fd, Session>

    constructor ()
      ensures View() == Shard([], map[], Idle)
    {
      queue, sessions := [], map[];
    }

    // The shard while nobody holds the mutex.
    ghost function View(): Shard
      reads this
    {
      Shard(queue, sessions, Idle)
    }

    method AddSession(fd: Fd, session: Session)
      modifies this`sessions
      ensures View() == AddTo(old(View()), fd, session)
    {
      sessions := sessions[fd := session];
    }

    method RemoveSession(fd: Fd)
      modifies this`sessions
      ensures View() == RemoveFrom(old(View()), fd)
    {
      sessions := sessions - {fd};
    }

    method DataAvailable(fd: Fd)
      modifies this`queue
      ensures View() == Push(old(View()), fd)
    {
      queue := queue + [fd];
    }

    // What the kernel notes when it announces data; no code of the server is involved.
    method Noted(events: seq<Event>)
      modifies this`sessions
      ensures View() == Announce(old(View()), events)
    {
      sessions := map fd | fd in sessions ::
        if DataReady(fd) in events then sessions[fd].(notices := sessions[fd].notices + [|Arrived(sessions[fd])|])
        else sessions[fd];
    }

    // The worker between taking and releasing the lock; an empty queue is a timed-out wait.
    method WorkerPass(protocol: Protocol) returns (response: Option<string>)
      modifies this
      ensures View() == ReplyIn(ReadIn(TakeFrom(old(View()))), protocol)
      ensures response.Some? <==> old(queue) != [] && old(queue)[0] in old(sessions)
      ensures response.Some? ==>
                var fd := old(queue)[0];
                fd in sessions && sessions[fd].sent == old(sessions)[fd].sent + [response.value]
    {
      response := None;
      if queue != [] {
        var fd := queue[0];
        queue := queue[1..];
        if fd in sessions {
          var chunk, s := RecvCall(sessions[fd]);
          sessions := sessions[fd := s];
          response := Some(protocol(s.received));
          sessions := sessions[fd := s.(sent := s.sent + [response.value])];
        }
      }
    }
  }

  class ThreadSingle {
    var sessions: map<Fd, Session>

    constructor ()
      ensures View() == Shard([], map[], Idle)
    {
      sessions := map[];
    }

    ghost function View(): Shard
      reads this
    {
      Shard([], sessions, Idle)
    }

    method AddSession(fd: Fd, session: Session)
      modifies this
      ensures View() == AddTo(old(View()), fd, session)
    {
      sessions := sessions[fd := session];
    }

    method RemoveSession(fd: Fd)
      modifies this
      ensures View() == RemoveFrom(old(View()), fd)
    {
      sessions := sessions - {fd};
    }

    method DataAvailable(fd: Fd, protocol: Protocol)
      modifies this
      ensures View() == SingleData(old(View()), fd, protocol)
    {
      if fd in sessions {
        var _, s := RecvCall(sessions[fd]);
        sessions := sessions[fd := s.(sent := s.sent + [protocol(s.received)])];
      }
    }
  }

  class ThreadManager {
    var threads: seq<ThreadMulti>

    ghost predicate Valid()
      reads this
    {
      threads != [] && forall i, j :: 0 <= i < j < |threads| ==> threads[i] != threads[j]
    }

    ghost function Views(): (r: seq<Shard>)
      reads this, threads
      ensures |r| == |threads|
    {
      seq(|threads|, i requires 0 <= i < |threads| reads this, threads => threads[i].View())
    }

    constructor (n: nat)
      requires n > 0
      ensures Valid() && fresh(threads) && Views() == seq(n, _ => Shard([], map[], Idle))
    {
      threads := [];
      new;
      for i := 0 to n
        invariant |threads| == i && fresh(threads)
        invariant forall j, k :: 0 <= j < k < i ==> threads[j] != threads[k]
        invariant forall j :: 0 <= j < i ==> threads[j].View() == Shard([], map[], Idle)
      {
        var t := new ThreadMulti();
        threads := threads + [t];
      }
    }

    method Noted(events: seq<Event>)
      requires Valid()
      modifies threads
      ensures forall i :: 0 <= i < |Views()| ==> Views()[i] == Announce(old(Views()[i]), events)
    {
      ghost var before := Views();
      for i := 0 to |threads|
        invariant forall j :: 0 <= j < i ==> threads[j].View() == Announce(before[j], events)
        invariant forall j :: i <= j < |threads| ==> threads[j].View() == before[j]
      {
        threads[i].Noted(events);
      }
    }

    method AddSession(fd: Fd, session: Session)
      requires Valid()
      modifies threads
      ensures Views() == old(Views()[fd % |threads| := AddTo(Views()[fd % |threads|], fd, session)])
    {
      threads[fd % |threads|].AddSession(fd, session);
    }

    method RemoveSession(fd: Fd)
      requires Valid()
      modifies threads
      ensures Views() == old(Views()[fd % |threads| := RemoveFrom(Views()[fd % |threads|], fd)])
    {
      threads[fd % |threads|].RemoveSession(fd);
    }

    method DataAvailable(fd: Fd)
      requires Valid()
      modifies threads
      ensures Views() == old(Views()[fd % |threads| := Push(Views()[fd % |threads|], fd)])
    {
      threads[fd % |threads|].DataAvailable(fd);
    }
  }

  // One epoll_event: `hangup` is EPOLLERR, EPOLLHUP or EPOLLRDHUP, `input` EPOLLIN or EPOLLET.
  datatype RawEvent = RawEvent(fd: Fd, hangup: bool, input: bool)

  function EventOf(r: RawEvent, serverFd: Fd): seq<Event> {
    if r.fd == serverFd then [NewClient]
    else if r.hangup then [Disconnected(r.fd)]
    else if r.input then [DataReady(r.fd)]
    else []
  }

  function Events(raw: seq<RawEvent>, serverFd: Fd): seq<Event> {
    if raw == [] then [] else Events(raw[..|raw| - 1], serverFd) + EventOf(raw[|raw| - 1], serverFd)
  }

  lemma {:induction false} EventsStep(raw: seq<RawEvent>, i: nat, serverFd: Fd)
    requires i < |raw|
    ensures Events(raw[..0], serverFd) == []
    ensures Events(raw[..i + 1], serverFd) == Events(raw[..i], serverFd) + EventOf(raw[i], serverFd)
  {
    assert raw[..i + 1][..i] == raw[..i];
  }

  ghost predicate HungUp(raw: seq<RawEvent>, fd: Fd) {
    exists r <- raw :: r.fd == fd && r.hangup
  }

  ghost predicate Readable(raw: seq<RawEvent>, fd: Fd) {
    exists r <- raw :: r.fd == fd && r.input && !r.hangup
  }

  ghost function Entries(raw: seq<RawEvent>, fd: Fd): nat {
    multiset(seq(|raw|, i requires 0 <= i < |raw| => raw[i].fd))[fd]
  }

  lemma {:induction false} EntriesAppend(raw: seq<RawEvent>, last: RawEvent, fd: Fd)
    ensures Entries(raw + [last], fd) == Entries(raw, fd) + if last.fd == fd then 1 else 0
    ensures HungUp(raw + [last], fd) <==> HungUp(raw, fd) || (last.fd == fd && last.hangup)
    ensures Readable(raw + [last], fd) <==> Readable(raw, fd) || (last.fd == fd && last.input && !last.hangup)
  {
    var all := raw + [last];
    assert forall r :: r in all <==> r in raw || r == last;
    var fds := seq(|all|, i requires 0 <= i < |all| => all[i].fd);
    assert fds == seq(|raw|, i requires 0 <= i < |raw| => raw[i].fd) + [last.fd];
  }

  // A client's hang-up wins over its input, and the server's own entries announce new clients.
  ghost predicate Announced(raw: seq<RawEvent>, events: seq<Event>, serverFd: Fd, fd: Fd) {
    if fd == serverFd then Disconnected(fd) !in events && DataReady(fd) !in events
    else (Disconnected(fd) in events <==> HungUp(raw, fd)) && (DataReady(fd) in events <==> Readable(raw, fd))
  }

  lemma {:induction false} EventKinds(raw: seq<RawEvent>, serverFd: Fd, fd: Fd)
    ensures Announced(raw, Events(raw, serverFd), serverFd, fd)
    ensures multiset(Events(raw, serverFd))[NewClient] == Entries(raw, serverFd)
    decreases |raw|
  {
    hide HungUp, Readable, Entries, Events;
    if raw == [] {
      NoEntries(fd, serverFd);
      NoEntries(serverFd, serverFd);
    } else {
      var n := |raw| - 1;
      assert raw == raw[..n] + [raw[n]] && raw[..n + 1] == raw;
      EventKinds(raw[..n], serverFd, fd);
      EventsStep(raw, n, serverFd);
      EntriesAppend(raw[..n], raw[n], fd);
      EntriesAppend(raw[..n], raw[n], serverFd);
    }
  }

  lemma NoEntries(fd: Fd, serverFd: Fd)
    ensures Events([], serverFd) == [] && Entries([], fd) == 0 && !HungUp([], fd) && !Readable([], fd)
  {
  }

  lemma {:induction false} AllKinds(raw: seq<RawEvent>, serverFd: Fd)
    ensures var events := Events(raw, serverFd);
            && (forall fd | fd != serverFd :: Disconnected(fd) in events <==> HungUp(raw, fd))
            && (forall fd | fd != serverFd :: DataReady(fd) in events <==> Readable(raw, fd))
            && Disconnected(serverFd) !in events && DataReady(serverFd) !in events
            && multiset(events)[NewClient] == Entries(raw, serverFd)
            && (forall fd :: fd in Dropped(events) <==> Disconnected(fd) in events)
  {
    hide HungUp, Readable, Entries, Events;
    EventKinds(raw, serverFd, serverFd);
    forall fd | fd != serverFd
      ensures Disconnected(fd) in Events(raw, serverFd) <==> HungUp(raw, fd)
      ensures DataReady(fd) in Events(raw, serverFd) <==> Readable(raw, fd)
    {
      EventKinds(raw, serverFd, fd);
    }
  }

  // Which entry of the list each event is about, in the order of the list.
  ghost predicate InOrder(raw: seq<RawEvent>, events: seq<Event>, serverFd: Fd, from: seq<nat>) {
    && |from| == |events|
    && (forall k, l :: 0 <= k < l < |from| ==> from[k] < from[l])
    && (forall k :: 0 <= k < |from| ==> from[k] < |raw|)
    && (forall k :: 0 <= k < |from| ==>
          raw[from[k]].fd == if events[k].NewClient? then serverFd else events[k].fd)
  }

  lemma {:induction false} EventsKeepOrder(raw: seq<RawEvent>, serverFd: Fd) returns (from: seq<nat>)
    ensures InOrder(raw, Events(raw, serverFd), serverFd, from)
    decreases |raw|
  {
    if raw == [] {
      from := [];
    } else {
      var n := |raw| - 1;
      from := EventsKeepOrder(raw[..n], serverFd);
      if Events(raw, serverFd) != Events(raw[..n], serverFd) {
        from := from + [n];
      }
    }
  }

  class Poller {
    const serverFd: Fd
    var interest: set<Fd>

    constructor (serverFd: Fd)
      ensures this.serverFd == serverFd && interest == {}
    {
      this.serverFd, interest := serverFd, {};
    }

    // What epoll_wait returned becomes events; a hung-up client leaves the epoll set at once.
    method Wait(raw: seq<RawEvent>) returns (events: seq<Event>)
      modifies this`interest
      ensures events == Events(raw, serverFd)
      ensures interest == old(interest) - Dropped(events)
      ensures forall fd | fd != serverFd :: Disconnected(fd) in events <==> HungUp(raw, fd)
      ensures forall fd | fd != serverFd :: DataReady(fd) in events <==> Readable(raw, fd)
      ensures Disconnected(serverFd) !in events && DataReady(serverFd) !in events
      ensures multiset(events)[NewClient] == Entries(raw, serverFd)
      ensures exists from :: InOrder(raw, events, serverFd, from)
      ensures forall fd | fd != serverFd :: fd in interest <==> fd in old(interest) && !HungUp(raw, fd)
    {
      hide HungUp, Readable, Entries, InOrder, Events;
      NoEntries(serverFd, serverFd);
      events := [];
      for i := 0 to |raw|
        invariant events == Events(raw[..i], serverFd)
        invariant interest == old(interest) - Dropped(events)
      {
        EventsStep(raw, i, serverFd);
        ghost var before := events;
        if raw[i].fd == serverFd {
          events := events + [NewClient];
        } else if raw[i].hangup {
          interest := interest - {raw[i].fd};
          events := events + [Disconnected(raw[i].fd)];
        } else if raw[i].input {
          events := events + [DataReady(raw[i].fd)];
        }
        DroppedAppend(before, if raw[i].fd == serverFd then NewClient
                              else if raw[i].hangup then Disconnected(raw[i].fd) else DataReady(raw[i].fd));
      }
      assert raw[..|raw|] == raw;
      ghost var from := EventsKeepOrder(raw, serverFd);
      AllKinds(raw, serverFd);
    }

    method AddClient(fd: Fd)
      modifies this`interest
      ensures interest == old(interest) + {fd}
    {
      interest := interest + {fd};
    }
  }

  lemma DroppedAppend(events: seq<Event>, e: Event)
    ensures Dropped(events + [e]) == Dropped(events) + if e.Disconnected? then {e.fd} else {}
  {
  }

  function NewClients(events: seq<Event>): nat {
    if events == [] then 0 else (if events[0].NewClient? then 1 else 0) + NewClients(events[1..])
  }

  // The steps of the main thread on a batch, given what each accept returns: the descriptor and
  // the bytes that are already there.
  function BatchSteps(events: seq<Event>, accepts: seq<(Fd, string)>): seq<Step>
    requires NewClients(events) <= |accepts|
    decreases |events|
  {
    if events == [] then []
    else
      match events[0]
      case NewClient => [Accept(accepts[0].0, accepts[0].1), Register] + BatchSteps(events[1..], accepts[1..])
      case DataReady(_) => [Notify] + BatchSteps(events[1..], accepts)
      case Disconnected(_) => [Remove] + BatchSteps(events[1..], accepts)
  }

  // The steps for the first event.
  function FirstSteps(w: World, accept: (Fd, string)): (r: World)
    requires w.shards != [] && w.batch != []
    ensures |r.shards| == |w.shards|
    ensures r.batch == w.batch[1..]
  {
    match w.batch[0]
    case NewClient => Apply(Apply(w, Accept(accept.0, accept.1)), Register)
    case DataReady(_) => Apply(w, Notify)
    case Disconnected(_) => Apply(w, Remove)
  }

  lemma {:induction false} BatchUnfolds(w: World, accepts: seq<(Fd, string)>, accept: (Fd, string))
    requires w.shards != [] && w.batch != [] && NewClients(w.batch) <= |accepts|
    requires w.batch[0].NewClient? ==> accepts[0] == accept
    ensures var left := if w.batch[0].NewClient? then accepts[1..] else accepts;
            && NewClients(w.batch[1..]) <= |left|
            && FirstSteps(w, accept).shards != []
            && After(w, BatchSteps(w.batch, accepts)) == After(FirstSteps(w, accept), BatchSteps(w.batch[1..], left))
  {
    hide Apply;
    var more := BatchSteps(w.batch[1..], if w.batch[0].NewClient? then accepts[1..] else accepts);
    if w.batch[0].NewClient? {
      assert ([Accept(accept.0, accept.1), Register] + more)[1..] == [Register] + more;
      assert ([Register] + more)[1..] == more;
    }
  }

  // ---- What the kernel promises ----

  // epoll_wait: every descriptor once, and only registered ones.
  ghost predicate ValidRaw(raw: seq<RawEvent>, serverFd: Fd, interest: set<Fd>) {
    && |raw| <= EVENT_BUFFER_SZ
    && (forall i, j :: 0 <= i < j < |raw| ==> raw[i].fd != raw[j].fd)
    && (forall e <- raw :: e.fd == serverFd || e.fd in interest)
  }

  // accept: each time a descriptor that is not open then.
  ghost predicate ValidAccepts(w: World, accepts: seq<(Fd, string)>)
    requires w.shards != []
    decreases |w.batch|
  {
    w.batch == [] ||
    if w.batch[0].NewClient? then
      && accepts != [] && accepts[0].0 !in w.open
      && ValidAccepts(FirstSteps(w, accepts[0]), accepts[1..])
    else ValidAccepts(FirstSteps(w, (0, "")), accepts)
  }

  lemma {:induction false} EventsOfRaw(raw: seq<RawEvent>, serverFd: Fd)
    requires forall i, j :: 0 <= i < j < |raw| ==> raw[i].fd != raw[j].fd
    ensures |Events(raw, serverFd)| <= |raw|
    ensures forall e <- Events(raw, serverFd) :: !e.NewClient? ==> e.fd != serverFd && exists r <- raw :: r.fd == e.fd
    ensures var events := Events(raw, serverFd);
            forall i, j :: 0 <= i < j < |events| && !events[i].NewClient? && !events[j].NewClient? ==> events[i].fd != events[j].fd
    decreases |raw|
  {
    if raw != [] {
      var n := |raw| - 1;
      var before, events, last := Events(raw[..n], serverFd), Events(raw, serverFd), raw[n];
      EventsOfRaw(raw[..n], serverFd);
      assert events[..|before|] == before;
      forall e | e in events && !e.NewClient?
        ensures e.fd != serverFd && exists r <- raw :: r.fd == e.fd
      {
        if e in before {
          var r :| r in raw[..n] && r.fd == e.fd;
          assert r in raw;
        } else {
          assert last in raw && last.fd == e.fd;
        }
      }
      forall i, j | 0 <= i < j < |events| && !events[i].NewClient? && !events[j].NewClient?
        ensures events[i].fd != events[j].fd
      {
        assert events[i] == before[i];
        if j == |before| {
          var r :| r in raw[..n] && r.fd == before[i].fd;
          var k :| 0 <= k < n && raw[k] == r;
        }
      }
    }
  }

  lemma {:induction false} RawIsValid(w: World, raw: seq<RawEvent>, serverFd: Fd)
    requires ValidRaw(raw, serverFd, w.interest)
    ensures ValidBatch(w, Events(raw, serverFd))
  {
    EventsOfRaw(raw, serverFd);
    forall e | e in Events(raw, serverFd) && !e.NewClient?
      ensures e.fd in w.interest
    {
      var r :| r in raw && r.fd == e.fd;
    }
  }

  ghost predicate AllIdle(w: World) {
    forall t <- w.shards :: t.phase.Idle?
  }

  lemma {:induction false} FirstStepsAreLegal(w: World, accept: (Fd, string))
    requires Inv(w) && AllIdle(w) && w.accepted.None? && w.batch != []
    requires w.batch[0].NewClient? ==> accept.0 !in w.open
    ensures match w.batch[0]
            case NewClient => Enabled(w, Accept(accept.0, accept.1)) && Enabled(Apply(w, Accept(accept.0, accept.1)), Register)
            case DataReady(_) => Enabled(w, Notify)
            case Disconnected(_) => Enabled(w, Remove)
    ensures var r := FirstSteps(w, accept); Inv(r) && AllIdle(r) && r.accepted.None?
  {
    hide Tracked, ShardOk, ValidBatch;
    match w.batch[0]
    case NewClient =>
      StepKeepsInv(w, Accept(accept.0, accept.1));
      StepKeepsInv(Apply(w, Accept(accept.0, accept.1)), Register);
    case DataReady(_) => StepKeepsInv(w, Notify);
    case Disconnected(_) => StepKeepsInv(w, Remove);
  }

  // A batch is handled by legal steps.
  lemma {:induction false} BatchIsLegal(w: World, accepts: seq<(Fd, string)>)
    requires w.shards != [] && Inv(w) && AllIdle(w) && w.accepted.None? && ValidAccepts(w, accepts)
    ensures NewClients(w.batch) <= |accepts| && Legal(w, BatchSteps(w.batch, accepts))
    decreases |w.batch|
  {
    hide Inv, Apply, Enabled, AllIdle;
    if w.batch != [] {
      var accept := if w.batch[0].NewClient? then accepts[0] else (0, "");
      var left := if w.batch[0].NewClient? then accepts[1..] else accepts;
      FirstStepsAreLegal(w, accept);
      BatchIsLegal(FirstSteps(w, accept), left);
      var more := BatchSteps(w.batch[1..], left);
      if w.batch[0].NewClient? {
        assert ([Accept(accept.0, accept.1), Register] + more)[1..] == [Register] + more;
        assert ([Register] + more)[1..] == more;
      } else {
        assert BatchSteps(w.batch, accepts)[1..] == more;
      }
    }
  }

  class MainLoop {
    const manager: ThreadManager
    const poller: Poller
    var nextId: nat  // labels the connections
    ghost const protocol: Protocol
    ghost var open: set<Fd>        // the kernel's table of descriptors
    ghost var before: map<Fd, nat> // the connections at the last poll

    constructor (serverFd: Fd, n: nat, protocol: Protocol)
      requires n > 0
      ensures manager.Valid() && fresh(manager) && fresh(poller) && fresh(manager.threads)
      ensures poller.serverFd == serverFd && State([]) == Start(n, {serverFd}, protocol)
    {
      manager := new ThreadManager(n);
      poller := new Poller(serverFd);
      nextId := 0;
      this.protocol, open, before := protocol, {serverFd}, map[];
    }

    // The state while no worker holds a lock.
    ghost function State(batch: seq<Event>): World
      reads this, manager, manager.threads, poller
    {
      World(manager.Views(), poller.interest, batch, None, before, nextId, {poller.serverFd}, open, protocol)
    }

    method NewClient(batch: seq<Event>, accept: (Fd, string))
      requires manager.Valid() && batch != [] && batch[0].NewClient?
      modifies this`nextId, this`open, manager.threads, poller`interest
      ensures State(batch[1..]) == FirstSteps(old(State(batch)), accept)
    {
      hide AddTo;
      manager.AddSession(accept.0, NewSession(nextId, accept.1));
      nextId := nextId + 1;
      open := open + {accept.0};
      poller.AddClient(accept.0);
    }

    method ClientDisconnected(batch: seq<Event>)
      requires manager.Valid() && batch != [] && batch[0].Disconnected?
      modifies this`open, manager.threads
      ensures State(batch[1..]) == Apply(old(State(batch)), Remove)
    {
      hide RemoveFrom;
      open := if HasSession(State(batch), batch[0].fd) then open - {batch[0].fd} else open;
      manager.RemoveSession(batch[0].fd);
    }

    method Handle(batch: seq<Event>, accept: (Fd, string))
      requires manager.Valid() && batch != []
      modifies this`nextId, this`open, manager.threads, poller`interest
      ensures State(batch[1..]) == FirstSteps(old(State(batch)), accept)
    {
      hide AddTo, RemoveFrom, Push, Dropped, Ids;
      match batch[0] {
        case NewClient => NewClient(batch, accept);
        case DataReady(fd) => manager.DataAvailable(fd);
        case Disconnected(fd) => ClientDisconnected(batch);
      }
    }

    method Poll(raw: seq<RawEvent>) returns (events: seq<Event>)
      requires manager.Valid()
      modifies this`before, manager.threads, poller`interest
      ensures events == Events(raw, poller.serverFd)
      ensures State(events) == Apply(old(State([])), Step.Poll(events))
    {
      hide Events, Announce, Dropped, Ids;
      ghost var w := State([]);
      events := poller.Wait(raw);
      manager.Noted(events);
      before := Ids(w);
      assert State(events).shards == Apply(w, Step.Poll(events)).shards;
    }

    // One batch, without a worker in between: `raw` is what epoll_wait returns, `accepts` what
    // the calls of accept return. What is done is a legal run of the system.
    method Iterate(raw: seq<RawEvent>, accepts: seq<(Fd, string)>)
      requires manager.Valid() && Inv(State([])) && ValidRaw(raw, poller.serverFd, poller.interest)
      requires var events := Events(raw, poller.serverFd); ValidAccepts(Apply(State([]), Step.Poll(events)), accepts)
      modifies this`nextId, this`open, this`before, manager.threads, poller`interest
      ensures var events := Events(raw, poller.serverFd);
              && NewClients(events) <= |accepts|
              && Legal(old(State([])), [Step.Poll(events)] + BatchSteps(events, accepts))
              && State([]) == After(old(State([])), [Step.Poll(events)] + BatchSteps(events, accepts))
      ensures Inv(State([]))
    {
      hide Events, NewClients, BatchSteps, After, Legal, FirstSteps, Dropped, Inv, Apply, Enabled, ValidRaw, ValidAccepts;
      ghost var start := State([]);
      PollIsLegal(start, raw, poller.serverFd);
      var events := Poll(raw);
      ghost var polled := State(events);
      StepKeepsInv(start, Step.Poll(events));
      BatchIsLegal(polled, accepts);
      OneStep(start, Step.Poll(events), BatchSteps(events, accepts));
      RunKeepsInv(start, [Step.Poll(events)] + BatchSteps(events, accepts));
      var left := accepts;
      for i := 0 to |events|
        invariant NewClients(events[i..]) <= |left|
        invariant After(State(events[i..]), BatchSteps(events[i..], left)) == After(polled, BatchSteps(events, accepts))
      {
        var accept := (0, "");
        ghost var w, was := State(events[i..]), left;
        assert events[i..][1..] == events[i + 1..];
        if events[i].NewClient? {
          SomeAccept(events[i..]);
          accept, left := left[0], left[1..];
        }
        BatchUnfolds(w, was, accept);
        Handle(events[i..], accept);
      }
      assert events[|events|..] == [];
      NoEvents(State([]), left);
    }
  }

  lemma PollIsLegal(w: World, raw: seq<RawEvent>, serverFd: Fd)
    requires w.shards != [] && w.batch == [] && w.accepted == None && ValidRaw(raw, serverFd, w.interest)
    ensures Enabled(w, Step.Poll(Events(raw, serverFd)))
  {
    hide Events, ValidRaw, ValidBatch;
    RawIsValid(w, raw, serverFd);
  }

  lemma SomeAccept(batch: seq<Event>)
    requires batch != [] && batch[0].NewClient?
    ensures NewClients(batch) > 0
  {
  }

  lemma NoEvents(w: World, accepts: seq<(Fd, string)>)
    requires w.shards != []
    ensures NewClients([]) == 0 && After(w, BatchSteps([], accepts)) == w
  {
  }
}
