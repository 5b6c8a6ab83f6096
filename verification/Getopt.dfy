// The scanner itself: the file-level and static variables of ya_getopt.c and the functions that
// update them and permute argv in place, each proved against the transition function.
module Getopt {
  import opened Common
  import opened GetoptDecode
  import opened GetoptRun

  // Moving one element of the block to the right end extends the block swap by one.
  lemma {:induction false} RotatedStep<T>(a: seq<T>, e: int, end: int, stop: int)
    requires 0 <= e < end <= stop <= |a|
    ensures var b := Rotated(a, e + 1, end, stop);
            var top := stop - (end - e - 1);
            && b[e] == a[e]
            && Rotated(b, e, e + 1, top) == Rotated(a, e, end, stop)
  {
    var b := Rotated(a, e + 1, end, stop);
    var top := stop - (end - e - 1);
    assert b[..e] == a[..e];
    assert b[e + 1..top] == a[end..stop];
    assert b[e..e + 1] == [a[e]];
    assert b[top..] == a[e + 1..end] + a[stop..];
    assert a[e..end] == [a[e]] + a[e + 1..end];
  }

  lemma RotatedNothing<T>(a: seq<T>, end: int, stop: int)
    requires 0 <= end <= stop <= |a|
    ensures Rotated(a, end, end, stop) == a
  {
  }

  function Code(e: Option<Event>): int {
    match e
    case None => -1
    case Some(Operand(_)) => 1
    case Some(Opt(code, _, _, _)) => code
  }

  class Scanner {
    var optarg: Option<string>
    var optind: int
    var optopt: int
    var optnext: string          // "" is the null pointer
    var posixlyCorrect: int      // -1 until the first call
    var handleNonopt: bool
    var start: int
    var end: int
    var longindex: Option<nat>   // the variable behind the caller's longindex pointer
    var flags: map<nat, int>     // the variables behind the flag pointers of the table

    constructor ()
      ensures fresh(this) && Modes()
      ensures forall argv: array<string> :: State(argv) == Fresh(argv[..], Regs(None, QUESTION, None, map[]))
    {
      optarg, optind, optopt, optnext := None, 1, QUESTION, "";
      posixlyCorrect, handleNonopt, start, end := -1, false, 0, 0;
      longindex, flags := None, map[];
    }

    ghost predicate Modes()
      reads this
    {
      -1 <= posixlyCorrect <= 1 && (handleNonopt ==> posixlyCorrect == 0)
    }

    ghost function Registers(): Regs
      reads this
    {
      Regs(optarg, optopt, longindex, flags)
    }

    ghost function State(argv: array<string>): Scan
      reads this, argv
    {
      Scan(argv[..], optind, optnext, start, end,
           if posixlyCorrect == -1 then None
           else if handleNonopt then Some(ReturnInOrder)
           else if posixlyCorrect == 1 then Some(RequireOrder)
           else Some(Permute),
           Registers())
    }

    method CheckGnuExtension(optstring: string)
      modifies this`posixlyCorrect, this`handleNonopt
      ensures Modes() && posixlyCorrect != -1
      ensures handleNonopt <==> ModeOf(optstring) == ReturnInOrder
      ensures posixlyCorrect == 1 <==> ModeOf(optstring) == RequireOrder
    {
      if optstring != "" && optstring[0] == '+' {
        posixlyCorrect := 1;
      } else {
        posixlyCorrect := 0;
      }
      handleNonopt := optstring != "" && optstring[0] == '-';
    }

    // The inner loop of the rotation: argv[e] goes to position `last`, the elements between
    // move one to the left.
    method ShiftLeft(argv: array<string>, e: int, last: int)
      requires 0 <= e <= last < argv.Length
      modifies argv
      ensures argv[..] == Rotated(old(argv[..]), e, e + 1, last + 1)
    {
      ghost var was := argv[..];
      var arg := argv[e];
      var i := e;
      while i < last
        invariant e <= i <= last
        invariant forall k :: 0 <= k < argv.Length && !(e <= k < i) ==> argv[k] == was[k]
        invariant forall k :: e <= k < i ==> argv[k] == was[k + 1]
      {
        argv[i] := argv[i + 1];
        i := i + 1;
      }
      argv[i] := arg;
      assert argv[..] == was[..e] + was[e + 1..last + 1] + [was[e]] + was[last + 1..];
    }

    method RotateBlock(argv: array<string>)
      requires WellFormed(State(argv)) && optnext == "" && start != 0 && optind >= 1
      modifies this`optind, this`start, this`end, argv
      ensures State(argv) == Rotate(old(State(argv)))
    {
      hide Rotated;
      ghost var was, from, stop := argv[..], end, optind;
      if start <= end <= optind {
        RotatedNothing(was, end, optind);
      }
      var last := optind - 1;
      optind := optind - (end - start);
      if optind <= 0 {
        optind := 1;
      }
      ghost var back := optind;
      while start < end
        invariant start == old(start) && optind == back
        invariant end <= from <= argv.Length
        invariant if start < from then start <= end else end == from
        invariant last == stop - 1 - (from - end)
        invariant start > from || from > stop ==> argv[..] == was
        invariant start <= from <= stop ==> argv[..] == Rotated(was, end, from, stop)
      {
        end := end - 1;
        if end <= last {
          ShiftLeft(argv, end, last);
          RotatedStep(was, end, from, stop);
        } else {
          argv[end] := argv[end];
        }
        last := last - 1;
      }
      end := end - 1;
      start := 0;
    }

    // Stores the ya_opterr-independent part of an error return.
    method Fail(bad: int)
      modifies this`optarg, this`optopt
      ensures optarg == None && optopt == bad
    {
      optarg, optopt := None, bad;
    }

    method ShortOpts(cfg: Config, argv: array<string>) returns (opt: int)
      requires 0 <= optind < argv.Length && optnext != ""
      modifies this`optarg, this`optind, this`optopt, this`optnext
      ensures var d := ShortDecode(cfg, old(optnext), argv[old(optind) + 1..]);
              && optind == old(optind) + d.used && optnext == d.left
              && Registers() == Stored(cfg, old(Registers()), d.event)
              && opt == Code(Some(d.event))
    {
      hide FlagWrite, Chars, MissingCode;
      var optstring := Chars(cfg);
      var os := IndexOf(optstring, optnext[0]);
      opt := optnext[0] as int;
      if os == |optstring| {
        optarg := None;
        if cfg.longOnly {
          optind := optind + 1;
          optnext := "";
        } else {
          optopt := opt;
          optnext := optnext[1..];
          if optnext == "" {
            optind := optind + 1;
          }
        }
        return QUESTION;
      }
      if ColonAt(optstring, os + 1) {
        if |optnext| == 1 {
          optind := optind + 1;
          optnext := "";
          if ColonAt(optstring, os + 2) {
            optarg := None;
          } else {
            if optind == argv.Length {
              Fail(opt);
              return MissingCode(cfg);
            }
            assert argv[old(optind) + 1..][0] == argv[optind];
            optarg := Some(argv[optind]);
            optind := optind + 1;
          }
        } else {
          optarg := Some(optnext[1..]);
          optind := optind + 1;
        }
        optnext := "";
      } else {
        optarg := None;
        optnext := optnext[1..];
        if optnext == "" {
          optind := optind + 1;
        }
      }
    }

    // With `longOnly` set, an unknown name is left for ShortOpts and nothing changes.
    method LongOpts(cfg: Config, argv: array<string>, arg: string, longOnly: bool) returns (code: int, unknown: bool)
      requires cfg.longopts.Some? && 0 <= optind < argv.Length
      modifies this`optarg, this`optind, this`optopt, this`longindex, this`flags
      ensures var long := LongDecode(cfg, arg, argv[old(optind) + 1..]);
              && unknown == long.None?
              && (long.Some? ==>
                    && optind == old(optind) + long.value.used
                    && Registers() == Stored(cfg, old(Registers()), long.value.event)
                    && code == Code(Some(long.value.event)))
              && (long.None? ==>
                    && optind == (if longOnly then old(optind) else old(optind) + 1)
                    && Registers() == old(Registers())
                    && code == QUESTION)
    {
      var table, val := cfg.longopts.value, None;
      ghost var rest := argv[optind + 1..];
      unknown := false;
      var idx := 0;
      while idx < |table|
        invariant idx <= |table| && LongIndex(table, arg, idx) == LongIndex(table, arg, 0)
        invariant optind == old(optind) && Registers() == old(Registers()) && val == None
      {
        var opt := table[idx];
        if opt.name <= arg {
          if |arg| == |opt.name| {
            if opt.hasArg.RequiredArgument? {
              optind := optind + 1;
              if optind == argv.Length {
                Fail(opt.val);
                return MissingCode(cfg), false;
              }
              assert rest[0] == argv[optind];
              val := Some(argv[optind]);
            }
            break;
          } else if arg[|opt.name|] == '=' {
            if opt.hasArg.NoArgument? {
              optind := optind + 1;
              Fail(opt.val);
              return QUESTION, false;
            }
            val := Some(arg[|opt.name| + 1..]);
            break;
          }
        }
        idx := idx + 1;
      }
      if idx == |table| {
        if !longOnly {
          optind := optind + 1;
        }
        return QUESTION, true;
      }
      var opt := table[idx];
      optarg := val;
      optind := optind + 1;
      flags := FlagWrite(cfg, flags, idx);
      longindex := Some(idx);
      code := if opt.flag.Some? then 0 else opt.val;
    }

    method Prepare(cfg: Config, argv: array<string>)
      requires Modes() && WellFormed(State(argv))
      modifies this, argv
      ensures Modes() && State(argv) == Rotate(Begin(cfg, old(State(argv))))
    {
      if optopt == QUESTION {
        optopt := 0;
      }
      if posixlyCorrect == -1 {
        CheckGnuExtension(cfg.optstring);
      }
      if optind == 0 {
        CheckGnuExtension(cfg.optstring);
        optind := 1;
        optnext := "";
      }
      assert State(argv) == Begin(cfg, old(State(argv)));
      if optnext == "" && start != 0 {
        RotateBlock(argv);
      }
    }

    // The end of a call, on the unread characters of the current element.
    method Characters(cfg: Config, argv: array<string>) returns (code: int)
      requires ValidConfig(cfg) && 0 <= optind < argv.Length && optnext != ""
      modifies this`optarg, this`optind, this`optopt, this`optnext, this`longindex, this`flags
      ensures var d := NextDecode(cfg, old(optnext), argv[old(optind) + 1..]);
              && optind == old(optind) + d.used && optnext == d.left
              && Registers() == Stored(cfg, old(Registers()), d.event)
              && code == Code(Some(d.event))
    {
      if cfg.longOnly {
        var rv, unknown := LongOpts(cfg, argv, optnext, true);
        if !unknown {
          optnext := "";
          return rv;
        }
      }
      code := ShortOpts(cfg, argv);
    }

    // The scan over a block of operands.
    method SkipOperands(argv: array<string>) returns (found: bool)
      requires 0 <= optind < argv.Length
      modifies this`optind, this`start, this`end
      ensures var i := NextOption(argv[..], old(optind) + 1);
              && found == (i < argv.Length)
              && start == old(optind)
              && optind == (if found then i else old(optind))
              && end == (if found then i else old(end))
    {
      start := optind;
      var i := optind + 1;
      while i < argv.Length && !IsOption(argv[i])
        invariant optind + 1 <= i <= argv.Length
        invariant NextOption(argv[..], i) == NextOption(argv[..], optind + 1)
      {
        i := i + 1;
      }
      if i == argv.Length {
        return false;
      }
      end := i;
      optind := i;
      return true;
    }

    // One call of ya_getopt, ya_getopt_long or ya_getopt_long_only.
    method Next(cfg: Config, argv: array<string>) returns (code: int)
      requires ValidConfig(cfg) && Modes() && WellFormed(State(argv))
      modifies this, argv
      ensures Modes() && WellFormed(State(argv))
      ensures State(argv) == Step(cfg, old(State(argv))).0
      ensures code == Code(Step(cfg, old(State(argv))).1)
    {
      hide NextDecode, Dispatch, FlagWrite, Rotate, Begin;
      RotateKeepsWellFormed(cfg, State(argv));
      StepKeepsWellFormed(cfg, State(argv));
      Prepare(cfg, argv);
      if optind >= argv.Length {
        optarg := None;
        return -1;
      }
      if optnext == "" {
        var arg := argv[optind];
        if !IsOption(arg) {
          if handleNonopt {
            optarg := Some(argv[optind]);
            optind := optind + 1;
            start := 0;
            return 1;
          } else if posixlyCorrect == 1 {
            optarg := None;
            return -1;
          } else {
            var found := SkipOperands(argv);
            if !found {
              optarg := None;
              return -1;
            }
            arg := argv[optind];
          }
        }
        code := Element(cfg, argv, arg);
      } else {
        code := Characters(cfg, argv);
      }
    }

    // A call that has found the next option element.
    method Element(cfg: Config, argv: array<string>, arg: string) returns (code: int)
      requires ValidConfig(cfg) && 0 <= optind < argv.Length && arg == argv[optind] && IsOption(arg) && optnext == ""
      modifies this`optarg, this`optind, this`optopt, this`optnext, this`longindex, this`flags
      ensures State(argv) == Dispatch(cfg, old(State(argv))).0
      ensures code == Code(Dispatch(cfg, old(State(argv))).1)
    {
      hide ShortDecode, NextDecode, LongDecode, FlagWrite;
      if arg == "--" {
        optind := optind + 1;
        return -1;
      }
      if IsLong(cfg, arg) {
        var unknown;
        code, unknown := LongOpts(cfg, argv, arg[2..], false);
      } else {
        optnext := arg[1..];
        code := Characters(cfg, argv);
      }
    }
  }

  // ---- The loop of a caller ----

  predicate NoMinusOne(cfg: Config) {
    cfg.longopts.Some? ==> forall entry <- cfg.longopts.value :: entry.val != -1
  }

  lemma {:induction false} DecodedCodes(cfg: Config, chars: string, rest: seq<string>)
    requires ValidConfig(cfg) && NoMinusOne(cfg)
    ensures chars != "" ==> Code(Some(NextDecode(cfg, chars, rest).event)) != -1
    ensures cfg.longopts.Some? && LongDecode(cfg, chars, rest).Some? ==>
              Code(Some(LongDecode(cfg, chars, rest).value.event)) != -1
  {
    hide Chars, IndexOf, LongIndex;
  }

  lemma {:induction false} OptionCodes(cfg: Config, s: Scan)
    requires ValidConfig(cfg) && NoMinusOne(cfg) && WellFormed(s)
    ensures Step(cfg, s).1.Some? ==> Code(Step(cfg, s).1) != -1
  {
    hide Begin, Rotate, Stored, NextDecode, LongDecode;
    RotateKeepsWellFormed(cfg, s);
    forall chars, rest {
      DecodedCodes(cfg, chars, rest);
    }
  }

  function Reported(trace: seq<(Event, Regs)>): seq<(int, Option<string>)> {
    if trace == [] then [] else [(Code(Some(trace[0].0)), trace[0].1.optarg)] + Reported(trace[1..])
  }

  // Asks for options until -1, as the load test does: the loop ends, and it sees the codes and
  // arguments of the run.
  method ParseArgs(cfg: Config, scanner: Scanner, argv: array<string>) returns (results: seq<(int, Option<string>)>)
    requires ValidConfig(cfg) && NoMinusOne(cfg) && scanner.Modes() && InRun(cfg, scanner.State(argv))
    modifies scanner, argv
    ensures results == Reported(Run(cfg, old(scanner.State(argv))).0)
    ensures scanner.State(argv) == Run(cfg, old(scanner.State(argv))).1
  {
    hide Step, Ahead;
    results := [];
    var code := 0;
    ghost var s := scanner.State(argv);
    while code != -1
      invariant scanner.Modes()
      invariant code == -1 ==>
                  && scanner.State(argv) == Run(cfg, old(scanner.State(argv))).1
                  && results == Reported(Run(cfg, old(scanner.State(argv))).0)
      invariant code != -1 ==>
                  && s == scanner.State(argv) && InRun(cfg, s)
                  && Run(cfg, s).1 == Run(cfg, old(scanner.State(argv))).1
                  && results + Reported(Run(cfg, s).0) == Reported(Run(cfg, old(scanner.State(argv))).0)
      decreases if code == -1 then 0 else 1 + |Ahead(cfg, s).events|
    {
      StepProgress(cfg, s);
      OptionCodes(cfg, s);
      code := scanner.Next(cfg, argv);
      if code != -1 {
        ghost var u := scanner.State(argv);
        assert Run(cfg, s).0 == [(Step(cfg, s).1.value, u.regs)] + Run(cfg, u).0;
        assert Run(cfg, s).0[1..] == Run(cfg, u).0;
        results := results + [(code, scanner.optarg)];
        s := u;
      }
    }
  }
}
