// A counter split into lanes: additions go to one lane atomically, a load adds the lanes up one
// after the other while other threads keep adding.
module MultiLane {
  const THREAD_LANES := 32

  // An addition by another thread.
  datatype Add = Add(lane: nat, amount: int)

  function Total(lanes: seq<int>): int {
    if lanes == [] then 0 else lanes[0] + Total(lanes[1..])
  }

  function Added(lanes: seq<int>, adds: seq<Add>): (r: seq<int>)
    ensures |r| == |lanes|
    decreases |adds|
  {
    if adds == [] then lanes
    else
      var a := adds[0];
      Added(if a.lane < |lanes| then lanes[a.lane := lanes[a.lane] + a.amount] else lanes, adds[1..])
  }

  // The additions to lanes at or behind `from`.
  function AmountFrom(adds: seq<Add>, from: nat, n: nat): int {
    if adds == [] then 0
    else (if from <= adds[0].lane < n then adds[0].amount else 0) + AmountFrom(adds[1..], from, n)
  }

  // meanwhile[i] happens just before lane i is read. What a load from lane i on then counts: the
  // additions that reach a lane before the scan does.
  function CaughtUp(meanwhile: seq<seq<Add>>, i: nat, n: nat): int
    requires n <= |meanwhile|
    decreases n - i
  {
    if i >= n then 0 else AmountFrom(meanwhile[i], i, n) + CaughtUp(meanwhile, i + 1, n)
  }

  function AllAdded(lanes: seq<int>, meanwhile: seq<seq<Add>>, i: nat): (r: seq<int>)
    requires i <= |meanwhile|
    ensures |r| == |lanes|
    decreases |meanwhile| - i
  {
    if i == |meanwhile| then lanes else AllAdded(Added(lanes, meanwhile[i]), meanwhile, i + 1)
  }

  lemma {:induction false} TotalUpdate(lanes: seq<int>, k: nat, x: int, from: nat)
    requires k < |lanes| && from <= |lanes|
    ensures Total(lanes[k := x][from..]) == Total(lanes[from..]) + if from <= k then x - lanes[k] else 0
    decreases |lanes| - from
  {
    if from < |lanes| {
      TotalUpdate(lanes, k, x, from + 1);
      assert lanes[k := x][from..][1..] == lanes[k := x][from + 1..];
      assert lanes[from..][1..] == lanes[from + 1..];
    }
  }

  lemma {:induction false} TotalAdded(lanes: seq<int>, adds: seq<Add>, from: nat)
    requires from <= |lanes|
    ensures Total(Added(lanes, adds)[from..]) == Total(lanes[from..]) + AmountFrom(adds, from, |lanes|)
    decreases |adds|
  {
    if adds != [] {
      var a := adds[0];
      if a.lane < |lanes| {
        TotalUpdate(lanes, a.lane, lanes[a.lane] + a.amount, from);
        TotalAdded(lanes[a.lane := lanes[a.lane] + a.amount], adds[1..], from);
      } else {
        TotalAdded(lanes, adds[1..], from);
      }
    }
  }

  ghost predicate NonNegative(adds: seq<Add>) {
    forall a <- adds :: a.amount >= 0
  }

  lemma {:induction false} AmountsGrow(adds: seq<Add>, from: nat, n: nat)
    requires NonNegative(adds)
    ensures 0 <= AmountFrom(adds, from, n) <= AmountFrom(adds, 0, n)
  {
    if adds != [] {
      assert adds[0] in adds;
      AmountsGrow(adds[1..], from, n);
    }
  }

  lemma {:induction false} TotalAllAdded(lanes: seq<int>, meanwhile: seq<seq<Add>>, i: nat, n: nat)
    requires i <= n <= |meanwhile| && n == |lanes|
    requires forall adds <- meanwhile :: NonNegative(adds)
    ensures 0 <= CaughtUp(meanwhile, i, n)
    ensures Total(lanes) + CaughtUp(meanwhile, i, n) <= Total(AllAdded(lanes, meanwhile, i))
    decreases |meanwhile| - i
  {
    if i < n {
      assert meanwhile[i] in meanwhile;
      AmountsGrow(meanwhile[i], i, n);
      TotalAllAdded(Added(lanes, meanwhile[i]), meanwhile, i + 1, n);
      TotalAdded(lanes, meanwhile[i], 0);
      assert Added(lanes, meanwhile[i])[0..] == Added(lanes, meanwhile[i]) && lanes[0..] == lanes;
    } else {
      OnlyGrows(lanes, meanwhile, i);
    }
  }

  lemma {:induction false} OnlyGrows(lanes: seq<int>, meanwhile: seq<seq<Add>>, i: nat)
    requires i <= |meanwhile| && forall adds <- meanwhile :: NonNegative(adds)
    ensures Total(lanes) <= Total(AllAdded(lanes, meanwhile, i))
    decreases |meanwhile| - i
  {
    if i < |meanwhile| {
      assert meanwhile[i] in meanwhile;
      AmountsGrow(meanwhile[i], 0, |lanes|);
      TotalAdded(lanes, meanwhile[i], 0);
      assert Added(lanes, meanwhile[i])[0..] == Added(lanes, meanwhile[i]) && lanes[0..] == lanes;
      OnlyGrows(Added(lanes, meanwhile[i]), meanwhile, i + 1);
    }
  }

  // For every interleaving of non-negative additions, the exact value a load returns lies
  // between the true total at its start and the true total at its end.
  lemma {:induction false} LoadIsBetween(lanes: seq<int>, meanwhile: seq<seq<Add>>)
    requires |meanwhile| == |lanes| + 1 && forall adds <- meanwhile :: NonNegative(adds)
    ensures Total(lanes) <= Total(lanes) + CaughtUp(meanwhile, 0, |lanes|) <= Total(AllAdded(lanes, meanwhile, 0))
  {
    TotalAllAdded(lanes, meanwhile, 0, |lanes|);
  }

  lemma {:induction false} TotalWithout(lanes: seq<int>, lane: nat)
    requires lane < |lanes|
    ensures Total(lanes) == lanes[lane] + Total(lanes[lane := 0])
  {
    TotalUpdate(lanes, lane, 0, 0);
    assert lanes[0..] == lanes && lanes[lane := 0][0..] == lanes[lane := 0];
  }

  // After one increment by the thread of lane 0, the thread of lane 1 gets 0 back, not 1.
  lemma {:induction false} OtherLanesAreNotSeen()
    ensures var lanes := Added(seq(THREAD_LANES, i => 0), [Add(0, 1)]);
            |lanes| == THREAD_LANES && lanes[1] == 0 && Total(lanes) == 1
  {
    var zeros := seq(THREAD_LANES, i => 0);
    TotalUpdate(zeros, 0, 1, 0);
    Zeros(zeros);
    assert zeros[0..] == zeros && zeros[0 := 1][0..] == zeros[0 := 1];
    assert [Add(0, 1)][1..] == [];
    assert Added(zeros, [Add(0, 1)]) == Added(zeros[0 := 1], []);
  }

  class MultiLaneAtomic {
    const lanes: array<int>

    constructor ()
      ensures fresh(lanes) && lanes.Length == THREAD_LANES && Total(lanes[..]) == 0
    {
      lanes := new int[THREAD_LANES](_ => 0);
      new;
      Zeros(lanes[..]);
    }

    // The lane is the one of the calling thread. What comes back is that lane's old value.
    method FetchAdd(lane: nat, arg: int) returns (previous: int)
      requires lane < lanes.Length
      modifies lanes
      ensures previous == old(lanes[lane]) && lanes[..] == Added(old(lanes[..]), [Add(lane, arg)])
      ensures Total(lanes[..]) == old(Total(lanes[..])) + arg
      ensures previous == old(Total(lanes[..])) <==> old(Total(lanes[..][lane := 0])) == 0
    {
      TotalWithout(lanes[..], lane);
      previous := lanes[lane];
      lanes[lane] := lanes[lane] + arg;
      ghost var was := old(lanes[..]);
      assert lanes[..] == was[lane := was[lane] + arg];
      TotalUpdate(was, lane, was[lane] + arg, 0);
      assert was[0..] == was && lanes[..][0..] == lanes[..];
    }

    method Store(desired: int)
      requires lanes.Length > 0
      modifies lanes
      ensures Total(lanes[..]) == desired
      ensures lanes[0] == desired && forall i :: 1 <= i < lanes.Length ==> lanes[i] == 0
    {
      var value := desired;
      for i := 0 to lanes.Length
        invariant value == if i == 0 then desired else 0
        invariant forall j :: 0 <= j < i ==> lanes[j] == if j == 0 then desired else 0
      {
        lanes[i] := value;
        value := 0;
      }
      assert lanes[..][1..] == lanes[1..];
      Zeros(lanes[1..]);
    }

    // The additions of the other threads before the next step of a scan.
    method Others(adds: seq<Add>)
      modifies lanes
      ensures lanes[..] == Added(old(lanes[..]), adds)
    {
      ghost var was := lanes[..];
      for i := 0 to |adds|
        invariant Added(lanes[..], adds[i..]) == Added(was, adds)
      {
        assert adds[i..][1..] == adds[i + 1..];
        var a := adds[i];
        if a.lane < lanes.Length {
          ghost var before := lanes[..];
          lanes[a.lane] := lanes[a.lane] + a.amount;
          assert lanes[..] == before[a.lane := before[a.lane] + a.amount];
        }
      }
    }

    // A load with meanwhile[i] happening before lane i is read, and the last entry before it
    // returns.
    method Load(meanwhile: seq<seq<Add>>) returns (result: int)
      requires |meanwhile| == lanes.Length + 1
      modifies lanes
      ensures lanes[..] == AllAdded(old(lanes[..]), meanwhile, 0)
      ensures result == old(Total(lanes[..])) + CaughtUp(meanwhile, 0, lanes.Length)
      ensures (forall adds <- meanwhile :: NonNegative(adds)) ==> old(Total(lanes[..])) <= result <= Total(lanes[..])
    {
      ghost var was := lanes[..];
      result := 0;
      assert was[0..] == was;
      for i := 0 to lanes.Length
        invariant AllAdded(lanes[..], meanwhile, i) == AllAdded(was, meanwhile, 0)
        invariant result + Total(lanes[..][i..]) + CaughtUp(meanwhile, i, lanes.Length)
               == Total(was) + CaughtUp(meanwhile, 0, lanes.Length)
      {
        TotalAdded(lanes[..], meanwhile[i], i);
        Others(meanwhile[i]);
        result := result + lanes[i];
        assert lanes[..][i..][0] == lanes[i] && lanes[..][i..][1..] == lanes[..][i + 1..];
      }
      Others(meanwhile[lanes.Length]);
      if forall adds <- meanwhile :: NonNegative(adds) {
        LoadIsBetween(was, meanwhile);
      }
    }
  }

  lemma {:induction false} Zeros(s: seq<int>)
    requires forall i :: 0 <= i < |s| ==> s[i] == 0
    ensures Total(s) == 0
  {
    if s != [] {
      Zeros(s[1..]);
    }
  }
}
