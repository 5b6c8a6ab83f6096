// The queue between the main thread and a worker loses, duplicates and reorders nothing.
module ShardQueues {
  import opened Dispatcher

  // What main thread and worker do to one queue: a notice, or a worker pass (an empty one is a
  // timed-out wait).
  datatype QueueOp = Notice(fd: Fd) | Pass

  function Notices(ops: seq<QueueOp>): seq<Fd> {
    if ops == [] then []
    else (if ops[0].Notice? then [ops[0].fd] else []) + Notices(ops[1..])
  }

  // The notices the passes pop, and the queue behind them.
  function Popped(queue: seq<Fd>, ops: seq<QueueOp>): (seq<Fd>, seq<Fd>)
    decreases |ops|
  {
    if ops == [] then ([], queue)
    else if ops[0].Notice? then Popped(queue + [ops[0].fd], ops[1..])
    else if queue == [] then Popped(queue, ops[1..])
    else
      var (popped, left) := Popped(queue[1..], ops[1..]);
      ([queue[0]] + popped, left)
  }

  // What one step does to the queue of shard s.
  function OpOf(w: World, step: Step, s: nat): seq<QueueOp>
    requires s < |w.shards|
  {
    match step
    case Notify =>
      if w.batch != [] && w.batch[0].DataReady? && Home(w, w.batch[0].fd) == s then [Notice(w.batch[0].fd)] else []
    case Take(t) => if t == s then [Pass] else []
    case _ => []
  }

  // The operations a run of the system performs on that queue.
  function OpsOn(w: World, steps: seq<Step>, s: nat): seq<QueueOp>
    requires s < |w.shards|
    decreases |steps|
  {
    if steps == [] then [] else OpOf(w, steps[0], s) + OpsOn(Apply(w, steps[0]), steps[1..], s)
  }

  // Nothing is lost, duplicated or reordered: what the non-empty passes popped, followed by the
  // queue, is the old queue followed by the notices. So the notice at position p is handled by
  // exactly the (p + 1)-th non-empty pass, whatever is pushed meanwhile.
  lemma {:induction false} QueueIsFifo(queue: seq<Fd>, ops: seq<QueueOp>)
    ensures var (popped, left) := Popped(queue, ops); popped + left == queue + Notices(ops)
    ensures forall p :: 0 <= p < |queue| && p < |Popped(queue, ops).0| ==> Popped(queue, ops).0[p] == queue[p]
    decreases |ops|
  {
    if ops == [] {
      assert [] + queue == queue + [];
    } else if ops[0].Notice? {
      QueueIsFifo(queue + [ops[0].fd], ops[1..]);
      assert queue + [ops[0].fd] + Notices(ops[1..]) == queue + ([ops[0].fd] + Notices(ops[1..]));
    } else {
      assert Notices(ops) == Notices(ops[1..]);
      if queue != [] {
        QueueIsFifo(queue[1..], ops[1..]);
        var (popped, left) := Popped(queue[1..], ops[1..]);
        assert [queue[0]] + popped + left == [queue[0]] + (popped + left);
        assert queue == [queue[0]] + queue[1..];
      } else {
        QueueIsFifo(queue, ops[1..]);
      }
    }
  }

  lemma {:induction false} PoppedInTwoParts(queue: seq<Fd>, a: seq<QueueOp>, b: seq<QueueOp>)
    ensures var (first, middle) := Popped(queue, a);
            var (second, left) := Popped(middle, b);
            Popped(queue, a + b) == (first + second, left)
    decreases |a|
  {
    if a == [] {
      assert a + b == b;
      assert [] + Popped(queue, b).0 == Popped(queue, b).0;
    } else {
      assert (a + b)[0] == a[0] && (a + b)[1..] == a[1..] + b;
      var later := if a[0].Notice? then queue + [a[0].fd] else if queue == [] then queue else queue[1..];
      PoppedInTwoParts(later, a[1..], b);
      var (first, middle) := Popped(later, a[1..]);
      if a[0].Pass? && queue != [] {
        assert [queue[0]] + (first + Popped(middle, b).0) == [queue[0]] + first + Popped(middle, b).0;
      }
    }
  }

  // The notices the worker of shard s takes along a run, whether it then reads or drops them.
  function TakenBy(w: World, step: Step, s: nat): seq<Fd>
    requires s < |w.shards|
  {
    if step == Take(s) && w.shards[s].queue != [] then [w.shards[s].queue[0]] else []
  }

  function Taken(w: World, steps: seq<Step>, s: nat): seq<Fd>
    requires s < |w.shards|
    decreases |steps|
  {
    if steps == [] then [] else TakenBy(w, steps[0], s) + Taken(Apply(w, steps[0]), steps[1..], s)
  }

  // In any run of the system the workers take from each shard's queue what the passes pop.
  lemma {:induction false} SystemQueues(w: World, steps: seq<Step>, s: nat)
    requires s < |w.shards| && Legal(w, steps)
    ensures (Taken(w, steps, s), After(w, steps).shards[s].queue) == Popped(w.shards[s].queue, OpsOn(w, steps, s))
    decreases |steps|
  {
    if steps != [] {
      hide Apply, Enabled, OpOf, TakenBy, Popped;
      var r := Apply(w, steps[0]);
      SystemQueues(r, steps[1..], s);
      OneStepQueue(w, steps[0], s);
      PoppedInTwoParts(w.shards[s].queue, OpOf(w, steps[0], s), OpsOn(r, steps[1..], s));
    }
  }

  // A taken notice is about to be read when its session is there, and dropped otherwise.
  lemma {:induction false} TakenIsRead(w: World, s: nat)
    requires Inv(w) && Enabled(w, Take(s)) && w.shards[s].queue != []
    ensures var fd := w.shards[s].queue[0];
            Apply(w, Take(s)).shards[s].phase == if HasSession(w, fd) then Reading(fd) else Idle
  {
    hide Tracked;
    assert ShardOk(w.shards[s], s, |w.shards|);
    assert w.shards[s].queue[0] in w.shards[s].queue;
  }

  lemma {:induction false} PoppedOne(queue: seq<Fd>, op: QueueOp)
    ensures Popped(queue, []) == ([], queue)
    ensures Popped(queue, [op]) ==
            match op
            case Notice(fd) => ([], queue + [fd])
            case Pass => if queue == [] then ([], queue) else ([queue[0]], queue[1..])
  {
    assert [op][1..] == [];
    if op.Pass? && queue != [] {
      assert [queue[0]] + [] == [queue[0]];
    }
  }

  lemma {:induction false} OneStepQueue(w: World, step: Step, s: nat)
    requires s < |w.shards| && Enabled(w, step)
    ensures (TakenBy(w, step, s), Apply(w, step).shards[s].queue) == Popped(w.shards[s].queue, OpOf(w, step, s))
  {
    hide ValidBatch, Popped;
    PoppedOne(w.shards[s].queue, Pass);
    if step.Notify? {
      PoppedOne(w.shards[s].queue, Notice(w.batch[0].fd));
    }
  }

  // So along any run a shard's worker takes, in order, the old queue and then the new notices.
  lemma {:induction false} SystemIsFifo(w: World, steps: seq<Step>, s: nat)
    requires s < |w.shards| && Legal(w, steps)
    ensures Taken(w, steps, s) + After(w, steps).shards[s].queue == w.shards[s].queue + Notices(OpsOn(w, steps, s))
  {
    hide Legal, After, Taken, OpsOn, Popped, Notices;
    SystemQueues(w, steps, s);
    QueueIsFifo(w.shards[s].queue, OpsOn(w, steps, s));
  }
}
