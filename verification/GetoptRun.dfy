// The resumable scanner as a transition function on its static state, and the refinement:
// a whole run of calls, with its deferred rotations, is a pure parse plus a stable partition.
module GetoptRun {
  import opened Common
  import opened GetoptDecode
  import opened GetoptParse

  // What a caller can look at after a call; `flags` are the variables named by the table.
  datatype Regs = Regs(optarg: Option<string>, optopt: int, longindex: Option<nat>, flags: map<nat, int>)

  // `next` is what ya_optnext points at ("" for NULL: it never points at a terminator);
  // `mode` is None until check_gnu_extension has run.
  datatype Scan = Scan(argv: seq<string>, optind: int, next: string, start: int, end: int,
                       mode: Option<Mode>, regs: Regs)

  function Stored(cfg: Config, r: Regs, e: Event): Regs {
    match e
    case Operand(word) => r.(optarg := Some(word))
    case Opt(code, arg, bad, index) =>
      r.(optarg := if arg.Assigned? then arg.value else r.optarg,
         optopt := if bad.Some? then bad.value else r.optopt,
         longindex := if index.Some? then index else r.longindex,
         flags := if index.Some? then FlagWrite(cfg, r.flags, index.value) else r.flags)
  }

  function FlagWrite(cfg: Config, flags: map<nat, int>, k: nat): map<nat, int> {
    if cfg.longopts.Some? && k < |cfg.longopts.value| && cfg.longopts.value[k].flag.Some? then
      flags[cfg.longopts.value[k].flag.value := cfg.longopts.value[k].val]
    else flags
  }

  function Cleared(r: Regs): Regs {
    if r.optopt == QUESTION then r.(optopt := 0) else r
  }

  // ---- The transition function ----

  // Enough for every array access of a call to be in bounds, whatever happened before.
  predicate WellFormed(s: Scan) {
    && 0 <= s.optind
    && (s.next != "" ==> s.optind < |s.argv|)
    && 0 <= s.start
    && (s.start != 0 ==> s.start < |s.argv| && s.optind <= |s.argv|)
    && s.end <= |s.argv|
  }

  function Begin(cfg: Config, s: Scan): Scan {
    s.(mode := if s.mode.None? || s.optind == 0 then Some(ModeOf(cfg.optstring)) else s.mode,
       next := if s.optind == 0 then "" else s.next,
       optind := if s.optind == 0 then 1 else s.optind,
       regs := Cleared(s.regs))
  }

  // Swaps the neighbouring blocks [start, end) and [end, stop).
  function Rotated<T>(a: seq<T>, start: int, end: int, stop: int): (r: seq<T>)
    requires 0 <= start <= end <= stop <= |a|
    ensures |r| == |a|
  {
    a[..start] + a[end..stop] + a[start..end] + a[stop..]
  }

  function Rotate(s: Scan): Scan
    requires WellFormed(s)
  {
    if s.next != "" || s.start == 0 then s
    else
      var back := s.optind - (s.end - s.start);
      s.(argv := if s.start <= s.end <= s.optind then Rotated(s.argv, s.start, s.end, s.optind) else s.argv,
         optind := if back <= 0 then 1 else back,
         start := 0,
         end := Min(s.start, s.end) - 1)
  }

  // The first option element at or after `from`, or |argv|.
  function NextOption(argv: seq<string>, from: nat): (i: nat)
    requires from <= |argv|
    ensures from <= i <= |argv|
    ensures i < |argv| ==> IsOption(argv[i])
    ensures forall k :: from <= k < i ==> !IsOption(argv[k])
    decreases |argv| - from
  {
    if from == |argv| || IsOption(argv[from]) then from else NextOption(argv, from + 1)
  }

  function Halt(s: Scan): Scan {
    s.(regs := s.regs.(optarg := None))
  }

  function Take(cfg: Config, s: Scan, d: Decoded): (Scan, Option<Event>) {
    (s.(optind := s.optind + d.used, next := d.left, regs := Stored(cfg, s.regs, d.event)), Some(d.event))
  }

  function Dispatch(cfg: Config, s: Scan): (Scan, Option<Event>)
    requires ValidConfig(cfg) && 0 <= s.optind < |s.argv| && IsOption(s.argv[s.optind])
  {
    if s.argv[s.optind] == "--" then (s.(optind := s.optind + 1), None)
    else Take(cfg, s, FirstDecode(cfg, s.argv[s.optind], s.argv[s.optind + 1..]))
  }

  // One call; None is the return value -1.
  function Step(cfg: Config, before: Scan): (Scan, Option<Event>)
    requires ValidConfig(cfg) && WellFormed(before)
  {
    Proceed(cfg, Rotate(Begin(cfg, before)))
  }

  predicate Settled(s: Scan) {
    WellFormed(s) && s.mode.Some? && s.optind >= 1 && (s.next == "" ==> s.start == 0)
  }

  // The rest of a call, after the rotation.
  function Proceed(cfg: Config, s: Scan): (Scan, Option<Event>)
    requires ValidConfig(cfg) && Settled(s)
  {
    if s.optind >= |s.argv| then (Halt(s), None)
    else if s.next != "" then Take(cfg, s, NextDecode(cfg, s.next, s.argv[s.optind + 1..]))
    else if IsOption(s.argv[s.optind]) then Dispatch(cfg, s)
    else
      match s.mode.value
      case RequireOrder => (Halt(s), None)
      case ReturnInOrder =>
        var e := Operand(s.argv[s.optind]);
        (s.(optind := s.optind + 1, start := 0, regs := Stored(cfg, s.regs, e)), Some(e))
      case Permute =>
        var i := NextOption(s.argv, s.optind + 1);
        if i == |s.argv| then (Halt(s.(start := s.optind)), None)
        else Dispatch(cfg, s.(start := s.optind, end := i, optind := i))
  }

  lemma {:induction false} ProceedKeepsWellFormed(cfg: Config, s: Scan)
    requires ValidConfig(cfg) && Settled(s)
    ensures WellFormed(Proceed(cfg, s).0) && |Proceed(cfg, s).0.argv| == |s.argv|
  {
    hide FirstDecode, NextDecode, Stored;
  }

  lemma {:induction false} RotateKeepsWellFormed(cfg: Config, s: Scan)
    requires WellFormed(s)
    ensures WellFormed(Begin(cfg, s)) && WellFormed(Rotate(Begin(cfg, s)))
    ensures Rotate(Begin(cfg, s)).optind >= 1 && |Rotate(Begin(cfg, s)).argv| == |s.argv|
    ensures Settled(Rotate(Begin(cfg, s)))
  {
  }

  // No call, and no reset through optind = 0, ever leaves a state from which an access could
  // go out of bounds: also after -1 and also with a stale [start, end).
  lemma {:induction false} StepKeepsWellFormed(cfg: Config, s: Scan)
    requires ValidConfig(cfg) && WellFormed(s)
    ensures WellFormed(Step(cfg, s).0) && |Step(cfg, s).0.argv| == |s.argv|
    ensures WellFormed(s.(optind := 0))
  {
    hide Proceed, Rotate, Begin;
    RotateKeepsWellFormed(cfg, s);
    ProceedKeepsWellFormed(cfg, Rotate(Begin(cfg, s)));
  }

  // Any number of calls, each preceded by a reset where `script` says so.
  ghost function Calls(cfg: Config, s: Scan, script: seq<bool>): (r: Scan)
    requires ValidConfig(cfg) && WellFormed(s)
    ensures WellFormed(r) && |r.argv| == |s.argv|
    decreases |script|
  {
    if script == [] then s
    else
      var begin := if script[0] then s.(optind := 0) else s;
      StepKeepsWellFormed(cfg, begin);
      Calls(cfg, Step(cfg, begin).0, script[1..])
  }

  // ---- Runs ----

  // What holds between the calls of one run, from the fresh state on.
  ghost predicate InRun(cfg: Config, s: Scan) {
    && WellFormed(s)
    && 1 <= s.optind
    && (s.optind <= |s.argv| || s.optind == 1)
    && (s.mode.None? || s.mode.value == ModeOf(cfg.optstring))
    && (s.start == 0 ==> s.end < s.optind)
    && (s.start != 0 ==>
          && ModeOf(cfg.optstring).Permute?
          && s.start < s.end <= s.optind
          && (s.next != "" ==> s.end == s.optind)
          && forall k :: s.start <= k < s.end ==> !IsOption(s.argv[k]))
  }

  function Fresh(argv: seq<string>, regs: Regs): Scan {
    Scan(argv, 1, "", 0, 0, None, regs)
  }

  function Unread(s: Scan): seq<string>
    requires 0 <= s.optind
  {
    if s.optind <= |s.argv| then s.argv[s.optind..] else []
  }

  // The elements already in their final place.
  function Placed(s: Scan): seq<string>
    requires WellFormed(s)
  {
    if s.start != 0 then s.argv[..s.start]
    else if s.optind <= |s.argv| then s.argv[..s.optind]
    else s.argv
  }

  // The operands waiting to be moved.
  function Block(s: Scan): seq<string>
    requires s.start != 0 ==> 0 <= s.start <= s.end <= |s.argv|
  {
    if s.start != 0 then s.argv[s.start..s.end] else []
  }

  // What a pure parse makes of the rest of the run.
  ghost function Ahead(cfg: Config, s: Scan): Parsed
    requires ValidConfig(cfg) && InRun(cfg, s)
  {
    var mode := ModeOf(cfg.optstring);
    var block := Block(s);
    if s.next == "" then
      var p := Parse(cfg, mode, Unread(s));
      var passed := if s.start != 0 then s.argv[s.end..s.optind] else [];
      p.(consumed := passed + p.consumed, operands := block + p.operands)
    else
      var (events, used) := Cluster(cfg, s.next, s.argv[s.optind + 1..]);
      var p := Parse(cfg, mode, s.argv[s.optind + used..]);
      Parsed(events + p.events, s.argv[s.optind..s.optind + used] + p.consumed, block + p.operands, p.tail)
  }

  function Layout(placed: seq<string>, p: Parsed): seq<string> {
    placed + p.consumed + p.operands + p.tail
  }

  // In a run the clamp of ya_optind at line 125 never fires, and the rotation is the block swap.
  lemma ClampIdle(cfg: Config, s: Scan)
    requires ValidConfig(cfg) && InRun(cfg, s) && s.next == "" && s.start != 0
    ensures s.optind - (s.end - s.start) >= s.start >= 1
    ensures Rotate(s).optind == s.optind - (s.end - s.start)
    ensures Rotate(s).argv == Rotated(s.argv, s.start, s.end, s.optind)
    ensures Rotate(s).argv[Rotate(s).optind] == s.argv[s.start]
  {
  }

  lemma {:induction false} RotatedBlocks<T>(a: seq<T>, start: int, end: int, stop: int)
    requires 0 <= start <= end <= stop <= |a|
    ensures var r, m := Rotated(a, start, end, stop), start + (stop - end);
            && r[..m] == a[..start] + a[end..stop]
            && r[m..] == a[start..end] + a[stop..]
            && r[m..stop] == a[start..end]
  {
  }

  // The rotation changes neither what lies ahead nor where it will end up.
  lemma {:induction false} RotateKeepsAhead(cfg: Config, s: Scan)
    requires ValidConfig(cfg) && InRun(cfg, s) && s.next == "" && s.start != 0
    ensures var r := Rotate(s);
            && InRun(cfg, r) && r.next == "" && r.start == 0
            && Ahead(cfg, r).events == Ahead(cfg, s).events
            && Ahead(cfg, r).tail == Ahead(cfg, s).tail
            && Ahead(cfg, r).operands == Ahead(cfg, s).operands
            && Placed(r) + Ahead(cfg, r).consumed == Placed(s) + Ahead(cfg, s).consumed
  {
    hide Parse, Cluster;
    ClampIdle(cfg, s);
    RotatedBlocks(s.argv, s.start, s.end, s.optind);
    var r, rest := Rotate(s), s.argv[s.optind..];
    var p := Parse(cfg, Permute, rest);
    OperandsFirst(cfg, s.argv[s.start..s.end], rest);
    assert Unread(r) == s.argv[s.start..s.end] + rest;
    assert Ahead(cfg, r).consumed == p.consumed;
    assert s.argv[..s.start] + s.argv[s.end..s.optind] + p.consumed
        == s.argv[..s.start] + (s.argv[s.end..s.optind] + p.consumed);
  }

  ghost predicate AtElement(cfg: Config, s: Scan) {
    InRun(cfg, s) && s.mode.Some? && s.optind < |s.argv| && (s.start != 0 ==> s.end == s.optind)
  }

  ghost predicate ValidDecoded(d: Decoded, rest: seq<string>) {
    (d.left == "" <==> d.used > 0) && d.used <= 1 + |rest|
  }

  // Consuming one decoded result moves one event from what lies ahead to what was returned.
  lemma {:induction false} TakeStep(cfg: Config, s: Scan, d: Decoded)
    requires ValidConfig(cfg) && AtElement(cfg, s) && ValidDecoded(d, s.argv[s.optind + 1..])
    ensures var u := Take(cfg, s, d).0;
            var (events, used) := Continue(cfg, d, s.argv[s.optind + 1..]);
            var p := Parse(cfg, ModeOf(cfg.optstring), s.argv[s.optind + used..]);
            && InRun(cfg, u) && u.mode == s.mode
            && events + p.events == [d.event] + Ahead(cfg, u).events
            && Placed(u) + Ahead(cfg, u).consumed == Placed(s) + (s.argv[s.optind..s.optind + used] + p.consumed)
            && Ahead(cfg, u).operands == Block(s) + p.operands
            && Ahead(cfg, u).tail == p.tail
  {
    hide FirstDecode, NextDecode, Stored, Parse;
    var u := Take(cfg, s, d).0;
    var (events, used) := Continue(cfg, d, s.argv[s.optind + 1..]);
    var p := Parse(cfg, ModeOf(cfg.optstring), s.argv[s.optind + used..]);
    assert InRun(cfg, u);
    assert Placed(s) + s.argv[s.optind..s.optind + used] + p.consumed
        == Placed(s) + (s.argv[s.optind..s.optind + used] + p.consumed);
    if d.left == "" {
      assert Ahead(cfg, u).events == p.events;
    } else {
      var (more, _) := Cluster(cfg, d.left, s.argv[s.optind + 1..]);
      assert Ahead(cfg, u).events == more + p.events;
      assert [d.event] + more + p.events == [d.event] + (more + p.events);
    }
    if s.start == 0 {
      assert s.argv[..s.optind] + s.argv[s.optind..s.optind + used] == s.argv[..s.optind + used];
    }
  }

  // ---- One call against the pure parse ----

  // The state in which the first -1 leaves the scanner: the elements in the order `placed`,
  // consumed, operands, tail, and ya_optind on the first element behind the consumed ones, or
  // just behind a "--".
  ghost predicate Finished(placed: seq<string>, p: Parsed, regs: Regs, r: Scan) {
    var dashes := p.tail != [] && p.tail[0] == "--";
    && r.argv == Layout(placed, p)
    && r.next == ""
    && r.regs == (if dashes then regs else regs.(optarg := None))
    && r.optind == (if r.argv == [] then 1
                    else if dashes then |placed| + |p.consumed| + |p.operands| + 1
                    else |placed| + |p.consumed|)
    && (r.start != 0 && r.end < r.start <==> p.operands != [] && p.tail == [])
  }

  ghost predicate Simulates(cfg: Config, s: Scan, u: Scan, e: Option<Event>)
    requires ValidConfig(cfg) && InRun(cfg, s)
  {
    if e.Some? then
      && InRun(cfg, u)
      && Ahead(cfg, s).events == [e.value] + Ahead(cfg, u).events
      && Placed(s) + Ahead(cfg, s).consumed == Placed(u) + Ahead(cfg, u).consumed
      && Ahead(cfg, s).operands == Ahead(cfg, u).operands
      && Ahead(cfg, s).tail == Ahead(cfg, u).tail
      && u.regs == Stored(cfg, s.regs, e.value)
    else
      && Ahead(cfg, s).events == []
      && Finished(Placed(s), Ahead(cfg, s), s.regs, u)
  }

  lemma {:induction false} ClusterSimulates(cfg: Config, s: Scan)
    requires ValidConfig(cfg) && AtElement(cfg, s) && s.next != ""
    ensures var (u, e) := Proceed(cfg, s); e.Some? && Simulates(cfg, s, u, e)
  {
    hide FirstDecode, NextDecode, Stored, Parse;
    TakeStep(cfg, s, NextDecode(cfg, s.next, s.argv[s.optind + 1..]));
  }

  lemma {:induction false} DashesSimulate(cfg: Config, s: Scan)
    requires ValidConfig(cfg) && AtElement(cfg, s) && s.next == "" && s.argv[s.optind] == "--"
    ensures var (u, e) := Dispatch(cfg, s); e.None? && Simulates(cfg, s, u, e)
  {
    hide FirstDecode, NextDecode;
    assert Placed(s) + [] + Block(s) + Unread(s) == s.argv;
    assert Ahead(cfg, s) == Parsed([], [], Block(s), Unread(s));
  }

  lemma {:induction false} ElementAhead(cfg: Config, s: Scan)
    requires ValidConfig(cfg) && AtElement(cfg, s) && s.next == "" && IsOption(s.argv[s.optind])
    requires s.argv[s.optind] != "--"
    ensures var rest := s.argv[s.optind + 1..];
            var (events, used) := Continue(cfg, FirstDecode(cfg, s.argv[s.optind], rest), rest);
            var p := Parse(cfg, ModeOf(cfg.optstring), s.argv[s.optind + used..]);
            Ahead(cfg, s) == Parsed(events + p.events, s.argv[s.optind..s.optind + used] + p.consumed,
                                    Block(s) + p.operands, p.tail)
  {
    hide FirstDecode, Parse, Cluster, Continue;
    var rest := s.argv[s.optind + 1..];
    var used := Continue(cfg, FirstDecode(cfg, s.argv[s.optind], rest), rest).1;
    ElementParse(cfg, ModeOf(cfg.optstring), Unread(s));
    assert Unread(s)[1..] == rest;
    assert Unread(s)[used..] == s.argv[s.optind + used..];
    assert Unread(s)[..used] == s.argv[s.optind..s.optind + used];
    assert Ahead(cfg, s).consumed == Parse(cfg, ModeOf(cfg.optstring), Unread(s)).consumed;
  }

  lemma {:induction false} ElementSimulates(cfg: Config, s: Scan)
    requires ValidConfig(cfg) && AtElement(cfg, s) && s.next == "" && IsOption(s.argv[s.optind])
    requires s.argv[s.optind] != "--"
    ensures var (u, e) := Dispatch(cfg, s); e.Some? && Simulates(cfg, s, u, e)
  {
    hide FirstDecode, Stored, Parse, Continue, Finished, Ahead, Placed, Unread;
    TakeStep(cfg, s, FirstDecode(cfg, s.argv[s.optind], s.argv[s.optind + 1..]));
    ElementAhead(cfg, s);
  }

  lemma {:induction false} DispatchSimulates(cfg: Config, s: Scan)
    requires ValidConfig(cfg) && AtElement(cfg, s) && s.next == "" && IsOption(s.argv[s.optind])
    ensures var (u, e) := Dispatch(cfg, s); Simulates(cfg, s, u, e)
  {
    hide Dispatch, Simulates, Ahead;
    if s.argv[s.optind] == "--" {
      DashesSimulate(cfg, s);
    } else {
      ElementSimulates(cfg, s);
    }
  }

  // The scan over a block of operands, up to the option element at `i` or to the end.
  lemma {:induction false} SkipKeepsAhead(cfg: Config, s: Scan, i: nat)
    requires ValidConfig(cfg) && InRun(cfg, s) && Settled(s) && s.next == "" && s.mode == Some(Permute)
    requires s.optind < i <= |s.argv| && forall k :: s.optind <= k < i ==> !IsOption(s.argv[k])
    ensures var t := s.(start := s.optind, end := i, optind := i);
            InRun(cfg, t) && Ahead(cfg, t) == Ahead(cfg, s) && Placed(t) == Placed(s)
  {
    hide Parse, Cluster;
    var block, rest := s.argv[s.optind..i], s.argv[i..];
    assert Unread(s) == block + rest;
    OperandsFirst(cfg, block, rest);
    var p := Parse(cfg, Permute, rest);
    assert [] + p.consumed == p.consumed && [] + (block + p.operands) == block + p.operands;
  }

  lemma {:induction false} ScanSimulates(cfg: Config, s: Scan)
    requires ValidConfig(cfg) && InRun(cfg, s) && Settled(s) && s.next == "" && s.mode == Some(Permute)
    requires s.optind < |s.argv| && !IsOption(s.argv[s.optind])
    ensures var (u, e) := Proceed(cfg, s); Simulates(cfg, s, u, e)
  {
    hide Dispatch, Parse, Cluster, Ahead, Placed, Finished, Unread, Layout;
    var i := NextOption(s.argv, s.optind + 1);
    SkipKeepsAhead(cfg, s, i);
    if i == |s.argv| {
      AllOperandsSimulate(cfg, s);
    } else {
      DispatchSimulates(cfg, s.(start := s.optind, end := i, optind := i));
    }
  }

  lemma {:induction false} AllOperandsSimulate(cfg: Config, s: Scan)
    requires ValidConfig(cfg) && InRun(cfg, s) && Settled(s) && s.next == "" && s.mode == Some(Permute)
    requires s.optind < |s.argv| && forall k :: s.optind <= k < |s.argv| ==> !IsOption(s.argv[k])
    ensures Simulates(cfg, s, Halt(s.(start := s.optind)), None)
  {
    hide Parse;
    EmptyParse(cfg, Permute);
    assert Unread(s) == Unread(s) + [];
    OperandsFirst(cfg, Unread(s), []);
    assert Ahead(cfg, s) == Parsed([], [], Unread(s), []);
    assert s.argv[..s.optind] + [] + Unread(s) + [] == s.argv;
  }

  lemma {:induction false} OperandSimulates(cfg: Config, s: Scan)
    requires ValidConfig(cfg) && InRun(cfg, s) && Settled(s) && s.next == "" && s.mode != Some(Permute)
    requires s.optind < |s.argv| && !IsOption(s.argv[s.optind])
    ensures var (u, e) := Proceed(cfg, s); Simulates(cfg, s, u, e)
  {
    hide Proceed, Simulates, Ahead, Parse;
    if s.mode == Some(RequireOrder) {
      OperandStops(cfg, s);
    } else {
      OperandIsReturned(cfg, s);
    }
  }

  lemma {:induction false} OperandStops(cfg: Config, s: Scan)
    requires ValidConfig(cfg) && InRun(cfg, s) && Settled(s) && s.next == "" && s.mode == Some(RequireOrder)
    requires s.optind < |s.argv| && !IsOption(s.argv[s.optind])
    ensures var (u, e) := Proceed(cfg, s); Simulates(cfg, s, u, e)
  {
    hide Dispatch, Parse, NextDecode, Cluster, Stored;
    var words := Unread(s);
    OperandParse(cfg, RequireOrder, words);
    assert s.argv[..s.optind] + [] + [] + words == s.argv;
  }

  lemma {:induction false} OperandIsReturned(cfg: Config, s: Scan)
    requires ValidConfig(cfg) && InRun(cfg, s) && Settled(s) && s.next == "" && s.mode == Some(ReturnInOrder)
    requires s.optind < |s.argv| && !IsOption(s.argv[s.optind])
    ensures var (u, e) := Proceed(cfg, s); Simulates(cfg, s, u, e)
  {
    hide Dispatch, Parse, NextDecode, Cluster, FlagWrite;
    var words, rest := Unread(s), s.argv[s.optind + 1..];
    assert words == [s.argv[s.optind]] + rest && words[1..] == rest;
    OperandParse(cfg, ReturnInOrder, words);
    var p, q := Parse(cfg, ReturnInOrder, words), Parse(cfg, ReturnInOrder, rest);
    assert [] + p.consumed == p.consumed && [] + p.operands == p.operands;
    assert s.argv[..s.optind] + ([words[0]] + q.consumed) == s.argv[..s.optind + 1] + q.consumed;
  }

  lemma {:induction false} ExhaustedSimulates(cfg: Config, s: Scan)
    requires ValidConfig(cfg) && InRun(cfg, s) && Settled(s) && s.optind >= |s.argv|
    ensures var (u, e) := Proceed(cfg, s); e.None? && Simulates(cfg, s, u, e)
  {
    hide Dispatch, Parse;
    EmptyParse(cfg, ModeOf(cfg.optstring));
    assert Unread(s) == [];
    assert Layout(Placed(s), Ahead(cfg, s)) == s.argv;
  }

  // Every call either returns exactly the next event of the pure parse of what was left, or
  // returns -1 when that parse is at its end, with the elements where the parse puts them.
  lemma {:induction false} StepSimulates(cfg: Config, s: Scan)
    requires ValidConfig(cfg) && InRun(cfg, s)
    ensures var (u, e) := Step(cfg, s); Simulates(cfg, s.(regs := Cleared(s.regs)), u, e)
  {
    hide Proceed, Parse, Cluster, NextDecode, FirstDecode;
    var b := Begin(cfg, s);
    var r := Rotate(b);
    var c := s.(regs := Cleared(s.regs));
    assert InRun(cfg, b) && Ahead(cfg, b) == Ahead(cfg, c) && Placed(b) == Placed(c);
    if b.next == "" && b.start != 0 {
      RotateKeepsAhead(cfg, b);
    }
    RotateKeepsWellFormed(cfg, s);
    ProceedSimulates(cfg, r);
  }

  lemma {:induction false} ProceedSimulates(cfg: Config, s: Scan)
    requires ValidConfig(cfg) && InRun(cfg, s) && Settled(s)
    ensures var (u, e) := Proceed(cfg, s); Simulates(cfg, s, u, e)
  {
    hide Proceed, Dispatch, Parse, Cluster, NextDecode, FirstDecode, Ahead, Simulates;
    if s.optind >= |s.argv| {
      ExhaustedSimulates(cfg, s);
    } else if s.next != "" {
      ClusterSimulates(cfg, s);
    } else if !IsOption(s.argv[s.optind]) {
      if s.mode == Some(Permute) {
        ScanSimulates(cfg, s);
      } else {
        OperandSimulates(cfg, s);
      }
    } else {
      DispatchSimulates(cfg, s);
      ProceedDispatches(cfg, s);
    }
  }

  lemma {:induction false} ProceedDispatches(cfg: Config, s: Scan)
    requires ValidConfig(cfg) && Settled(s) && s.optind < |s.argv| && s.next == "" && IsOption(s.argv[s.optind])
    ensures Proceed(cfg, s) == Dispatch(cfg, s)
  {
    hide Dispatch, NextDecode, FirstDecode;
  }

  // ---- Whole runs ----

  lemma {:induction false} StepProgress(cfg: Config, s: Scan)
    requires ValidConfig(cfg) && InRun(cfg, s)
    ensures WellFormed(s)
    ensures var (u, e) := Step(cfg, s);
            e.Some? ==> InRun(cfg, u) && |Ahead(cfg, u).events| + 1 == |Ahead(cfg, s).events|
  {
    hide Step, Parse, Cluster;
    StepSimulates(cfg, s);
    AheadIgnoresRegs(cfg, s, Cleared(s.regs));
  }

  // The calls up to and including the first -1: what each one returned and left in the
  // variables, and the state behind the -1. The run ends because the events ahead run out.
  ghost function Run(cfg: Config, s: Scan): (r: (seq<(Event, Regs)>, Scan))
    requires ValidConfig(cfg) && InRun(cfg, s)
    decreases |Ahead(cfg, s).events|
  {
    StepProgress(cfg, s);
    var (u, e) := Step(cfg, s);
    if e.None? then ([], u)
    else
      var (more, last) := Run(cfg, u);
      ([(e.value, u.regs)] + more, last)
  }

  // The variables after each of a list of events.
  function Replay(cfg: Config, regs: Regs, events: seq<Event>): seq<(Event, Regs)>
    decreases |events|
  {
    if events == [] then []
    else
      var after := Stored(cfg, Cleared(regs), events[0]);
      [(events[0], after)] + Replay(cfg, after, events[1..])
  }

  function LastRegs(cfg: Config, regs: Regs, events: seq<Event>): Regs
    decreases |events|
  {
    if events == [] then Cleared(regs)
    else LastRegs(cfg, Stored(cfg, Cleared(regs), events[0]), events[1..])
  }

  lemma {:induction false} RunIsAhead(cfg: Config, s: Scan)
    requires ValidConfig(cfg) && InRun(cfg, s)
    ensures Run(cfg, s).0 == Replay(cfg, s.regs, Ahead(cfg, s).events)
    ensures Finished(Placed(s), Ahead(cfg, s), LastRegs(cfg, s.regs, Ahead(cfg, s).events), Run(cfg, s).1)
    decreases |Ahead(cfg, s).events|
  {
    hide Parse, Cluster, Stored, Step, Ahead;
    StepSimulates(cfg, s);
    var (u, e) := Step(cfg, s);
    var c := s.(regs := Cleared(s.regs));
    AheadIgnoresRegs(cfg, s, Cleared(s.regs));
    if e.Some? {
      RunIsAhead(cfg, u);
      assert Ahead(cfg, c).events[1..] == Ahead(cfg, u).events;
    }
  }

  lemma {:induction false} AheadIgnoresRegs(cfg: Config, s: Scan, regs: Regs)
    requires ValidConfig(cfg) && InRun(cfg, s)
    ensures Ahead(cfg, s.(regs := regs)) == Ahead(cfg, s)
  {
    hide Parse, Cluster;
  }

  function Words(args: seq<string>): seq<string> {
    if args == [] then [] else args[1..]
  }

  // The main result. For every argument list, option table and mode, the calls up to the first
  // -1 return what a pure left-to-right parse of the original list reports, with the variables
  // it sets, and argv ends as program name, consumed elements, operands, tail.
  lemma {:induction false} RunRefinesParse(cfg: Config, args: seq<string>, regs: Regs)
    requires ValidConfig(cfg)
    ensures InRun(cfg, Fresh(args, regs))
    ensures var p := Parse(cfg, ModeOf(cfg.optstring), Words(args));
            && Run(cfg, Fresh(args, regs)).0 == Replay(cfg, regs, p.events)
            && Finished(args[..|args| - |Words(args)|], p, LastRegs(cfg, regs, p.events), Run(cfg, Fresh(args, regs)).1)
  {
    hide Parse, Run;
    var s := Fresh(args, regs);
    assert InRun(cfg, s);
    RunIsAhead(cfg, s);
    assert Unread(s) == Words(args) && Placed(s) == args[..|args| - |Words(args)|];
    var p := Parse(cfg, ModeOf(cfg.optstring), Words(args));
    assert [] + p.consumed == p.consumed && [] + p.operands == p.operands;
  }

  // ---- What the run leaves behind ----

  lemma {:induction false} ShuffleKeepsAll(whole: seq<string>, a: seq<string>, b: seq<string>, tail: seq<string>)
    requires Shuffle(whole, a, b, tail)
    ensures multiset(whole) == multiset(a) + multiset(b) + multiset(tail)
    decreases |whole|
  {
    if a == [] && b == [] && whole == tail {
    } else {
      assert whole == [whole[0]] + whole[1..];
      if a != [] && whole[0] == a[0] && Shuffle(whole[1..], a[1..], b, tail) {
        ShuffleKeepsAll(whole[1..], a[1..], b, tail);
        assert a == [a[0]] + a[1..];
      } else {
        ShuffleKeepsAll(whole[1..], a, b[1..], tail);
        assert b == [b[0]] + b[1..];
      }
    }
  }

  lemma {:induction false} ShuffleAlone(whole: seq<string>, a: seq<string>, tail: seq<string>)
    requires Shuffle(whole, a, [], tail)
    ensures whole == a + tail
    decreases |whole|
  {
    if a != [] {
      ShuffleAlone(whole[1..], a[1..], tail);
      assert whole == [a[0]] + (a[1..] + tail);
    }
  }

  // The elements a caller should find at ya_optind: the operands and what follows a "--".
  function Promised(p: Parsed): seq<string> {
    p.operands + (if p.tail != [] && p.tail[0] == "--" then p.tail[1..] else p.tail)
  }

  lemma {:induction false} FinishedTail(placed: seq<string>, p: Parsed, regs: Regs, r: Scan)
    requires Finished(placed, p, regs, r) && placed != []
    requires p.operands != [] && p.tail != [] ==> p.tail[0] == "--"
    ensures 1 <= r.optind <= |r.argv|
    ensures r.argv[r.optind..] == Promised(p) <==> p.operands == [] || p.tail == []
  {
    if p.tail == [] || p.tail[0] != "--" {
      assert r.argv[r.optind..] == p.operands + p.tail;
    } else {
      assert r.argv[r.optind..] == p.tail[1..];
      assert |Promised(p)| == |p.operands| + |p.tail[1..]|;
    }
  }

  lemma {:induction false} LayoutFacts(args: seq<string>, p: Parsed)
    requires args != [] && Shuffle(args[1..], p.consumed, p.operands, p.tail)
    ensures multiset(Layout([args[0]], p)) == multiset(args)
    ensures p.operands == [] ==> Layout([args[0]], p) == args
  {
    hide Shuffle;
    ShuffleKeepsAll(args[1..], p.consumed, p.operands, p.tail);
    assert args == [args[0]] + args[1..];
    if p.operands == [] {
      ShuffleAlone(args[1..], p.consumed, p.tail);
    }
  }

  // argv becomes a stable partition: an interleaving of the consumed elements and the operands
  // is turned into the one followed by the other. Nothing is lost in any mode, nothing moves
  // outside the permuting mode, and argv[optind..] holds every element that is not an option,
  // as a caller expects, exactly unless a "--" was reached while operands were waiting.
  lemma {:induction false} RunPartitions(cfg: Config, args: seq<string>, regs: Regs)
    requires ValidConfig(cfg) && args != []
    ensures InRun(cfg, Fresh(args, regs))
    ensures var p, r := Parse(cfg, ModeOf(cfg.optstring), args[1..]), Run(cfg, Fresh(args, regs)).1;
            && Shuffle(args[1..], p.consumed, p.operands, p.tail)
            && (forall w <- p.operands :: !(|w| > 1 && w[0] == '-'))
            && r.argv == [args[0]] + p.consumed + p.operands + p.tail
            && multiset(r.argv) == multiset(args)
            && (!ModeOf(cfg.optstring).Permute? ==> r.argv == args)
            && 1 <= r.optind <= |r.argv|
            && (r.argv[r.optind..] == Promised(p) <==> p.operands == [] || p.tail == [])
  {
    hide Parse, Run, Shuffle, Replay, LastRegs, Promised;
    RunRefinesParse(cfg, args, regs);
    var mode := ModeOf(cfg.optstring);
    var p, r := Parse(cfg, mode, args[1..]), Run(cfg, Fresh(args, regs)).1;
    ParsePartitions(cfg, mode, args[1..]);
    ParseStops(cfg, mode, args[1..]);
    assert args[..1] == [args[0]];
    LayoutFacts(args, p);
    FinishedTail([args[0]], p, LastRegs(cfg, regs, p.events), r);
  }

  // `prog x -- y`: argv[optind..] is y alone.
  lemma {:induction false} DashesHideAnOperand()
    ensures var cfg, s := Config("a", None, false), Fresh(["prog", "x", "--", "y"], Regs(None, 0, None, map[]));
            && InRun(cfg, s)
            && var r := Run(cfg, s).1;
            && r.argv == s.argv && r.optind == 3 && r.argv[r.optind..] == ["y"]
            && Promised(Parse(cfg, Permute, s.argv[1..])) == ["x", "y"]
  {
    hide Run;
    var cfg, args, regs := Config("a", None, false), ["prog", "x", "--", "y"], Regs(None, 0, None, map[]);
    var words := args[1..];
    assert words == ["x", "--", "y"] && words[1..] == ["--", "y"] && words[1..][1..] == ["y"];
    OperandParse(cfg, Permute, words);
    var p := Parse(cfg, Permute, words);
    assert p == Parsed([], [], ["x"], ["--", "y"]);
    RunRefinesParse(cfg, args, regs);
    assert args[..1] == ["prog"] && Layout(["prog"], p) == args;
  }

  // A run makes no more calls than there are characters and elements to read.
  lemma {:induction false} RunIsBounded(cfg: Config, args: seq<string>, regs: Regs)
    requires ValidConfig(cfg)
    ensures InRun(cfg, Fresh(args, regs))
    ensures |Run(cfg, Fresh(args, regs)).0| <= TotalLength(Words(args)) + |Words(args)|
  {
    hide Parse, Run;
    RunRefinesParse(cfg, args, regs);
    EventsBounded(cfg, ModeOf(cfg.optstring), Words(args));
    ReplayEvents(cfg, regs, Parse(cfg, ModeOf(cfg.optstring), Words(args)).events);
  }

  function EventsOf(trace: seq<(Event, Regs)>): seq<Event> {
    seq(|trace|, i requires 0 <= i < |trace| => trace[i].0)
  }

  lemma {:induction false} ReplayEvents(cfg: Config, regs: Regs, events: seq<Event>)
    ensures EventsOf(Replay(cfg, regs, events)) == events
    decreases |events|
  {
    if events != [] {
      ReplayEvents(cfg, Stored(cfg, Cleared(regs), events[0]), events[1..]);
      var more := Replay(cfg, Stored(cfg, Cleared(regs), events[0]), events[1..]);
      assert forall i :: 0 <= i < |more| ==> more[i].0 == EventsOf(more)[i];
      assert events == [events[0]] + events[1..];
    }
  }

  // The three modes as runs of calls over one list: option characters `chars`, given plainly,
  // behind a '-' and behind a '+'.
  lemma {:induction false} RunModesAgree(cfg: Config, args: seq<string>, regs: Regs)
    requires ValidConfig(cfg) && args != [] && ModeOf(cfg.optstring).Permute?
    ensures var inOrder, posix := cfg.(optstring := "-" + cfg.optstring), cfg.(optstring := "+" + cfg.optstring);
            && InRun(cfg, Fresh(args, regs)) && InRun(inOrder, Fresh(args, regs)) && InRun(posix, Fresh(args, regs))
            && var events := EventsOf(Run(inOrder, Fresh(args, regs)).0);
            && WithoutOperands(events) == EventsOf(Run(cfg, Fresh(args, regs)).0)
            && BeforeOperand(events) == EventsOf(Run(posix, Fresh(args, regs)).0)
            && var r := Run(cfg, Fresh(args, regs)).1;
            && 1 <= r.optind <= |r.argv|
            && (Parse(cfg, Permute, args[1..]).tail == [] ==>
                  r.argv[r.optind..] == OperandsIn(events))
  {
    hide Parse, Run;
    var inOrder, posix := cfg.(optstring := "-" + cfg.optstring), cfg.(optstring := "+" + cfg.optstring);
    assert Chars(inOrder) == Chars(cfg) == Chars(posix);
    RunRefinesParse(cfg, args, regs);
    RunRefinesParse(inOrder, args, regs);
    RunRefinesParse(posix, args, regs);
    ParseReadsChars(cfg, inOrder, ReturnInOrder, args[1..]);
    ParseReadsChars(cfg, posix, RequireOrder, args[1..]);
    ModesAgree(cfg, args[1..]);
    ReplayEvents(cfg, regs, Parse(cfg, Permute, args[1..]).events);
    ReplayEvents(inOrder, regs, Parse(cfg, ReturnInOrder, args[1..]).events);
    ReplayEvents(posix, regs, Parse(cfg, RequireOrder, args[1..]).events);
    RunPartitions(cfg, args, regs);
    assert Parse(cfg, Permute, args[1..]).tail == [] ==>
        Run(cfg, Fresh(args, regs)).1.argv[Run(cfg, Fresh(args, regs)).1.optind..]
        == Parse(cfg, Permute, args[1..]).operands + [];
  }

  // ---- Starting over ----

  // Setting optind to 0 asks for a new scan from element 1. The next call honours that exactly
  // when the run before did not end with moved operands: those leave `start` set and `end`
  // below it, and the rotation then steps ya_optind forwards.
  lemma {:induction false} ResetAfterRun(cfg: Config, args: seq<string>, regs: Regs)
    requires ValidConfig(cfg) && args != []
    ensures InRun(cfg, Fresh(args, regs))
    ensures var p, r := Parse(cfg, ModeOf(cfg.optstring), args[1..]), Run(cfg, Fresh(args, regs)).1;
            WellFormed(r) && Rotate(Begin(cfg, r.(optind := 0))).argv == r.argv
            && (Rotate(Begin(cfg, r.(optind := 0))).optind == 1 <==> p.operands == [] || p.tail != [])
  {
    hide Parse;
    RunRefinesParse(cfg, args, regs);
    RunStaysWellFormed(cfg, Fresh(args, regs));
    var r := Run(cfg, Fresh(args, regs)).1;
    var again := Begin(cfg, r.(optind := 0));
    if again.start == 1 == again.end {
      assert Rotated(r.argv, 1, 1, 1) == r.argv;
    }
  }

  lemma {:induction false} RunStaysWellFormed(cfg: Config, s: Scan)
    requires ValidConfig(cfg) && InRun(cfg, s)
    ensures WellFormed(Run(cfg, s).1)
    decreases |Ahead(cfg, s).events|
  {
    hide Step, Parse, Cluster;
    StepSimulates(cfg, s);
    StepKeepsWellFormed(cfg, s);
    if Step(cfg, s).1.Some? {
      RunStaysWellFormed(cfg, Step(cfg, s).0);
    }
  }

  // `prog x`: the second scan starts behind x.
  lemma ResetSkipsAnOperand()
    ensures var cfg := Config("a", None, false);
            var s := Step(cfg, Fresh(["prog", "x"], Regs(None, 0, None, map[]))).0;
            && WellFormed(s) && s.argv == ["prog", "x"] && s.optind == 1
            && Step(cfg, s.(optind := 0)).0.optind == 2
  {
    var cfg := Config("a", None, false);
    var s := Fresh(["prog", "x"], Regs(None, 0, None, map[]));
    assert Step(cfg, s) == (Halt(Begin(cfg, s).(start := 1)), None);
  }
}
