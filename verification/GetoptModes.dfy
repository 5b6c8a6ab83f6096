// The three scanning modes compared by what a caller sees: codes and ya_optarg. An unknown long
// option leaves ya_optarg as it was, so here the results of `-` mode depend on the operands before.
module GetoptModes {
  import opened Common
  import opened GetoptDecode
  import opened GetoptParse
  import opened GetoptRun
  import opened Getopt

  // The calls that did not return an operand, and those before the first that did.
  function OptionCalls(trace: seq<(Event, Regs)>): seq<(Event, Regs)> {
    if trace == [] then []
    else (if trace[0].0.Operand? then [] else [trace[0]]) + OptionCalls(trace[1..])
  }

  function CallsBefore(trace: seq<(Event, Regs)>): seq<(Event, Regs)> {
    if trace == [] || trace[0].0.Operand? then [] else [trace[0]] + CallsBefore(trace[1..])
  }

  predicate IsUnknownLong(e: Event) {
    e.Opt? && e.arg.Kept?
  }

  function ArgAfter(before: Option<string>, e: Event): Option<string> {
    match e
    case Operand(word) => Some(word)
    case Opt(_, arg, _, _) => if arg.Assigned? then arg.value else before
  }

  // ya_optarg behind these events: what the last of them that assigned it did assign.
  function LastArg(before: Option<string>, events: seq<Event>): Option<string>
    decreases |events|
  {
    if events == [] then before else LastArg(ArgAfter(before, events[0]), events[1..])
  }

  // In front of no unknown long option is the last value assigned that of an operand, unless the
  // last option assigned the same.
  ghost predicate NoStaleOperand(before: Option<string>, events: seq<Event>) {
    forall i :: 0 <= i < |events| && IsUnknownLong(events[i]) ==>
      LastArg(before, events[..i]) == LastArg(before, WithoutOperands(events[..i]))
  }

  // The same one event at a time: `kept` is the value without the operands, `now` with them.
  predicate Undisturbed(kept: Option<string>, now: Option<string>, events: seq<Event>)
    decreases |events|
  {
    events == [] ||
    if events[0].Operand? then Undisturbed(kept, ArgAfter(now, events[0]), events[1..])
    else
      && (IsUnknownLong(events[0]) ==> kept == now)
      && Undisturbed(ArgAfter(kept, events[0]), ArgAfter(now, events[0]), events[1..])
  }

  lemma {:induction false} UndisturbedIff(kept: Option<string>, now: Option<string>, events: seq<Event>)
    ensures Undisturbed(kept, now, events) <==>
            forall i :: 0 <= i < |events| && IsUnknownLong(events[i]) ==>
              LastArg(now, events[..i]) == LastArg(kept, WithoutOperands(events[..i]))
    decreases |events|
  {
    if events != [] {
      var e, more := events[0], events[1..];
      var k, n := if e.Operand? then kept else ArgAfter(kept, e), ArgAfter(now, e);
      UndisturbedIff(k, n, more);
      forall i | 0 <= i < |more|
        ensures LastArg(now, events[..i + 1]) == LastArg(n, more[..i])
        ensures LastArg(kept, WithoutOperands(events[..i + 1])) == LastArg(k, WithoutOperands(more[..i]))
      {
        assert events[..i + 1][1..] == more[..i];
        if !e.Operand? {
          assert WithoutOperands(events[..i + 1])[1..] == WithoutOperands(more[..i]);
        }
      }
      assert LastArg(now, events[..0]) == now && LastArg(kept, WithoutOperands(events[..0])) == kept;
      assert forall i :: 0 <= i < |more| ==> more[i] == events[i + 1];
      assert forall i :: 1 <= i < |events| ==> events[i] == more[i - 1] && events[..i] == events[..(i - 1) + 1];
    }
  }

  // Replaying events with and without the operands shows the same results exactly then.
  lemma {:induction false} ReplaysAgreeIff(a: Config, b: Config, r: Regs, s: Regs, events: seq<Event>)
    ensures Reported(OptionCalls(Replay(a, r, events))) == Reported(Replay(b, s, WithoutOperands(events))) <==>
            Undisturbed(s.optarg, r.optarg, events)
    decreases |events|
  {
    if events != [] {
      hide FlagWrite;
      var e, more := events[0], events[1..];
      var after := Stored(a, Cleared(r), e);
      var trace := Replay(a, r, events);
      assert trace[1..] == Replay(a, after, more);
      if e.Operand? {
        ReplaysAgreeIff(a, b, after, s, more);
        assert trace[0] == (e, after) && OptionCalls(trace) == OptionCalls(Replay(a, after, more));
        assert after.optarg == ArgAfter(r.optarg, e) && WithoutOperands(events) == WithoutOperands(more);
      } else {
        var other := Stored(b, Cleared(s), e);
        ReplaysAgreeIff(a, b, after, other, more);
        assert WithoutOperands(events)[1..] == WithoutOperands(more);
        var left, right := OptionCalls(trace), Replay(b, s, WithoutOperands(events));
        assert left[1..] == OptionCalls(trace[1..]) && right[1..] == Replay(b, other, WithoutOperands(more));
        assert Reported(left)[1..] == Reported(left[1..]) && Reported(right)[1..] == Reported(right[1..]);
        assert Reported(left)[0] == (Code(Some(e)), after.optarg) && Reported(right)[0] == (Code(Some(e)), other.optarg);
      }
    }
  }

  lemma {:induction false} ReplaysAgreeBefore(a: Config, b: Config, r: Regs, s: Regs, events: seq<Event>)
    requires r.optarg == s.optarg
    ensures Reported(CallsBefore(Replay(a, r, events))) == Reported(Replay(b, s, BeforeOperand(events)))
    decreases |events|
  {
    if events != [] && !events[0].Operand? {
      hide FlagWrite;
      var e, more := events[0], events[1..];
      var after, other := Stored(a, Cleared(r), e), Stored(b, Cleared(s), e);
      ReplaysAgreeBefore(a, b, after, other, more);
      assert BeforeOperand(events)[1..] == BeforeOperand(more);
      var trace, right := Replay(a, r, events), Replay(b, s, BeforeOperand(events));
      var left := CallsBefore(trace);
      assert trace[1..] == Replay(a, after, more);
      assert left[1..] == CallsBefore(trace[1..]) && right[1..] == Replay(b, other, BeforeOperand(more));
    }
  }

  // For every list: `-` mode without its operand results shows the caller what the permuting mode
  // shows, ya_optarg included, if and only if there is no stale operand; `+` mode always shows
  // what `-` mode shows before its first operand.
  lemma {:induction false} ReportsAgreeIff(cfg: Config, args: seq<string>, regs: Regs)
    requires ValidConfig(cfg) && args != [] && ModeOf(cfg.optstring).Permute?
    ensures var inOrder, posix := cfg.(optstring := "-" + cfg.optstring), cfg.(optstring := "+" + cfg.optstring);
            && InRun(cfg, Fresh(args, regs)) && InRun(inOrder, Fresh(args, regs)) && InRun(posix, Fresh(args, regs))
            && var trace := Run(inOrder, Fresh(args, regs)).0;
            && (Reported(OptionCalls(trace)) == Reported(Run(cfg, Fresh(args, regs)).0) <==>
                  NoStaleOperand(regs.optarg, Parse(cfg, ReturnInOrder, args[1..]).events))
            && Reported(CallsBefore(trace)) == Reported(Run(posix, Fresh(args, regs)).0)
  {
    hide Parse, Run, Replay, Reported, OptionCalls, CallsBefore, Finished;
    var inOrder, posix := cfg.(optstring := "-" + cfg.optstring), cfg.(optstring := "+" + cfg.optstring);
    assert Chars(inOrder) == Chars(cfg) == Chars(posix);
    RunRefinesParse(cfg, args, regs);
    RunRefinesParse(inOrder, args, regs);
    RunRefinesParse(posix, args, regs);
    ParseReadsChars(cfg, inOrder, ReturnInOrder, args[1..]);
    ParseReadsChars(cfg, posix, RequireOrder, args[1..]);
    ModesAgree(cfg, args[1..]);
    var events := Parse(cfg, ReturnInOrder, args[1..]).events;
    ReplaysAgreeIff(inOrder, cfg, regs, regs, events);
    UndisturbedIff(regs.optarg, regs.optarg, events);
    ReplaysAgreeBefore(inOrder, posix, regs, regs, events);
  }

  // `prog x --zzz`: `-` mode reports the unknown option with the operand as its argument.
  lemma {:induction false} StaleOperandIsShown()
    ensures var cfg, regs := Config("a", Some([]), false), Regs(None, 0, None, map[]);
            var inOrder, s := cfg.(optstring := "-a"), Fresh(["prog", "x", "--zzz"], regs);
            && InRun(cfg, s) && InRun(inOrder, s)
            && Reported(Run(inOrder, s).0) == [(1, Some("x")), (QUESTION, Some("x"))]
            && Reported(Run(cfg, s).0) == [(QUESTION, None)]
  {
    hide Run, Finished, Replay, Reported, Parse;
    var cfg, regs := Config("a", Some([]), false), Regs(None, 0, None, map[]);
    var inOrder, args := cfg.(optstring := "-a"), ["prog", "x", "--zzz"];
    RunRefinesParse(cfg, args, regs);
    RunRefinesParse(inOrder, args, regs);
    assert args[1..] == ["x", "--zzz"];
    UnknownLongIsParsed(cfg);
    UnknownLongIsParsed(inOrder);
    StaleReplays(cfg, inOrder, regs);
  }

  lemma StaleReplays(a: Config, b: Config, regs: Regs)
    requires regs == Regs(None, 0, None, map[])
    ensures var bad := Opt(QUESTION, Kept, None, None);
            && Reported(Replay(a, regs, [bad])) == [(QUESTION, None)]
            && Reported(Replay(b, regs, [Operand("x"), bad])) == [(1, Some("x")), (QUESTION, Some("x"))]
  {
    var bad := Opt(QUESTION, Kept, None, None);
    var r := Stored(b, regs, Operand("x"));
    assert [Operand("x"), bad][1..] == [bad] && [bad][1..] == [];
    assert Replay(a, regs, [bad]) == [(bad, regs)];
    assert Replay(b, r, [bad]) == [(bad, r)];
    assert Replay(b, regs, [Operand("x"), bad]) == [(Operand("x"), r)] + [(bad, r)];
    assert ([(Operand("x"), r)] + [(bad, r)])[1..] == [(bad, r)];
  }

  lemma UnknownLongIsParsed(cfg: Config)
    requires cfg.longopts == Some([]) && !cfg.longOnly
    ensures var bad := Opt(QUESTION, Kept, None, None);
            && Parse(cfg, Permute, ["x", "--zzz"]).events == [bad]
            && Parse(cfg, ReturnInOrder, ["x", "--zzz"]).events == [Operand("x"), bad]
  {
    var words := ["x", "--zzz"];
    assert words[1..] == ["--zzz"];
    var bad := Opt(QUESTION, Kept, None, None);
    assert FirstDecode(cfg, "--zzz", []) == Decoded(bad, "", 1);
    EmptyParse(cfg, Permute);
    EmptyParse(cfg, ReturnInOrder);
    assert words[1..][1..] == [];
    assert [bad] + [] == [bad];
    ElementParse(cfg, Permute, words[1..]);
    ElementParse(cfg, ReturnInOrder, words[1..]);
    OperandParse(cfg, Permute, words);
    OperandParse(cfg, ReturnInOrder, words);
  }
}
