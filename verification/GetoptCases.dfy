// What one call reports and stores for each kind of option and mistake, in terms of the option
// string, the table and the unread characters alone.
module GetoptCases {
  import opened Common
  import opened GetoptDecode
  import opened GetoptParse
  import opened GetoptRun
  import opened Getopt

  // The option string is `os` behind a mode character, or plainly.
  ghost predicate Spells(optstring: string, os: string) {
    || optstring == "+" + os
    || optstring == "-" + os
    || (optstring == os && (os == "" || (os[0] != '+' && os[0] != '-')))
  }

  lemma CharsSpelled(cfg: Config, os: string)
    requires Spells(cfg.optstring, os)
    ensures Chars(cfg) == os
    ensures MissingCode(cfg) == if os != "" && os[0] == ':' then ':' as int else '?' as int
  {
  }

  // What a call returns and the variables it leaves, from `r`.
  function Returned(d: Decoded): int {
    Code(Some(d.event))
  }

  function Left(cfg: Config, r: Regs, d: Decoded): Regs {
    Stored(cfg, r, d.event)
  }

  // The character is at `k` in the option string, first there, with no, one or two colons behind.
  lemma {:induction false} KnownCharacter(cfg: Config, os: string, k: nat, chars: string, rest: seq<string>, r: Regs)
    requires !cfg.longOnly && Spells(cfg.optstring, os)
    requires chars != "" && k < |os| && os[k] == chars[0] && forall j :: 0 <= j < k ==> os[j] != chars[0]
    ensures var d := NextDecode(cfg, chars, rest);
            var after := Left(cfg, r, d);
            var colons := if k + 1 < |os| && os[k + 1] == ':' then (if k + 2 < |os| && os[k + 2] == ':' then 2 else 1) else 0;
            && after.longindex == r.longindex && after.flags == r.flags
            && (colons == 0 ==>  // a flag
                  && Returned(d) == chars[0] as int && after.optarg == None && after.optopt == r.optopt
                  && d.left == chars[1..] && d.used == if |chars| == 1 then 1 else 0)
            && (colons > 0 && |chars| > 1 ==>  // the argument in the same element
                  && Returned(d) == chars[0] as int && after.optarg == Some(chars[1..]) && after.optopt == r.optopt
                  && d.left == "" && d.used == 1)
            && (colons == 2 && |chars| == 1 ==>  // an optional one left out
                  && Returned(d) == chars[0] as int && after.optarg == None && after.optopt == r.optopt
                  && d.left == "" && d.used == 1)
            && (colons == 1 && |chars| == 1 && rest != [] ==>  // the next element
                  && Returned(d) == chars[0] as int && after.optarg == Some(rest[0]) && after.optopt == r.optopt
                  && d.left == "" && d.used == 2)
            && (colons == 1 && |chars| == 1 && rest == [] ==>  // missing
                  && Returned(d) == (if os[0] == ':' then ':' as int else '?' as int)
                  && after.optarg == None && after.optopt == chars[0] as int
                  && d.left == "" && d.used == 1)
  {
    CharsSpelled(cfg, os);
    assert IndexOf(os, chars[0]) == k;
  }

  lemma {:induction false} UnknownCharacter(cfg: Config, os: string, chars: string, rest: seq<string>, r: Regs)
    requires ValidConfig(cfg) && Spells(cfg.optstring, os) && chars != "" && chars[0] !in os
    requires cfg.longOnly ==>
               forall entry <- cfg.longopts.value :: !(chars == entry.name || entry.name + "=" <= chars)
    ensures var d := NextDecode(cfg, chars, rest);
            var after := Left(cfg, r, d);
            && Returned(d) == '?' as int && after.optarg == None && after.longindex == r.longindex && after.flags == r.flags
            && if cfg.longOnly then after.optopt == r.optopt && d.left == "" && d.used == 1
               else after.optopt == chars[0] as int && d.left == chars[1..] && d.used == if |chars| == 1 then 1 else 0
  {
    CharsSpelled(cfg, os);
    if cfg.longOnly {
      NoEntry(cfg.longopts.value, chars);
    }
  }

  lemma {:induction false} NameMatchesIff(name: string, arg: string)
    ensures NameMatches(name, arg) <==> arg == name || name + "=" <= arg
  {
    if name <= arg && |arg| > |name| {
      assert arg == arg[..|name|] + [arg[|name|]] + arg[|name| + 1..];
    }
  }

  lemma {:induction false} NoEntry(table: seq<LongOption>, arg: string)
    requires forall entry <- table :: !(arg == entry.name || entry.name + "=" <= arg)
    ensures LongIndex(table, arg, 0) == |table|
  {
    hide NameMatches;
    forall j | 0 <= j < |table|
      ensures !NameMatches(table[j].name, arg)
    {
      NameMatchesIff(table[j].name, arg);
    }
  }

  lemma {:induction false} FirstEntry(table: seq<LongOption>, k: nat, arg: string)
    requires k < |table| && (arg == table[k].name || table[k].name + "=" <= arg)
    requires forall j :: 0 <= j < k ==> !(arg == table[j].name || table[j].name + "=" <= arg)
    ensures LongIndex(table, arg, 0) == k && NameMatches(table[k].name, arg)
  {
    hide NameMatches;
    forall j | 0 <= j <= k
      ensures NameMatches(table[j].name, arg) <==> j == k
    {
      NameMatchesIff(table[j].name, arg);
    }
  }

  // A long name, alone or with '=' and a value; entry k is the first that fits.
  lemma {:induction false} KnownName(cfg: Config, os: string, k: nat, arg: string, rest: seq<string>, r: Regs)
    requires Spells(cfg.optstring, os) && cfg.longopts.Some? && k < |cfg.longopts.value|
    requires var table := cfg.longopts.value;
             && (arg == table[k].name || table[k].name + "=" <= arg)
             && forall j :: 0 <= j < k ==> !(arg == table[j].name || table[j].name + "=" <= arg)
    ensures LongDecode(cfg, arg, rest).Some?
    ensures var d := LongDecode(cfg, arg, rest).value;
            var after := Left(cfg, r, d);
            var entry := cfg.longopts.value[k];
            var alone := arg == entry.name;
            var missing := alone && entry.hasArg == RequiredArgument && rest == [];
            var unwanted := !alone && entry.hasArg == NoArgument;
            && d.left == ""
            && (missing || unwanted ==>
                  && Returned(d) == (if missing && os != "" && os[0] == ':' then ':' as int else '?' as int)
                  && after.optarg == None && after.optopt == entry.val && d.used == 1
                  && after.longindex == r.longindex && after.flags == r.flags)
            && (!missing && !unwanted ==>
                  && after.optopt == r.optopt && after.longindex == Some(k)
                  && (entry.flag.None? ==> Returned(d) == entry.val && after.flags == r.flags)
                  && (entry.flag.Some? ==> Returned(d) == 0 && after.flags == r.flags[entry.flag.value := entry.val])
                  && (!alone ==> after.optarg == Some(arg[|entry.name| + 1..]) && d.used == 1)
                  && (alone && entry.hasArg == RequiredArgument ==> after.optarg == Some(rest[0]) && d.used == 2)
                  && (alone && entry.hasArg != RequiredArgument ==> after.optarg == None && d.used == 1))
  {
    hide NameMatches, LongIndex;
    CharsSpelled(cfg, os);
    FirstEntry(cfg.longopts.value, k, arg);
  }

  // Which of the two readings a fresh element gets. An unknown name changes no variable, but a
  // single-dash element that is no name is read by characters.
  lemma {:induction false} WhichReading(cfg: Config, word: string, rest: seq<string>, r: Regs)
    requires ValidConfig(cfg) && |word| > 1 && word[0] == '-'
    ensures IsOption(word)
    ensures var d := FirstDecode(cfg, word, rest);
            if cfg.longopts.Some? && word[1] == '-' then
              match LongDecode(cfg, word[2..], rest)
              case Some(long) => d == long
              case None => Returned(d) == '?' as int && Left(cfg, r, d) == r && d.left == "" && d.used == 1
            else if cfg.longOnly && LongDecode(cfg, word[1..], rest).Some? then
              d == LongDecode(cfg, word[1..], rest).value
            else d == NextDecode(cfg, word[1..], rest)
  {
    hide LongDecode, ShortDecode;
  }

  lemma {:induction false} UnknownName(cfg: Config, arg: string, rest: seq<string>)
    requires cfg.longopts.Some?
    ensures LongDecode(cfg, arg, rest).None? <==>
            forall entry <- cfg.longopts.value :: !(arg == entry.name || entry.name + "=" <= arg)
  {
    var table := cfg.longopts.value;
    var k := LongIndex(table, arg, 0);
    if k < |table| {
      NameMatchesIff(table[k].name, arg);
      assert table[k] in table;
    } else {
      forall entry | entry in table
        ensures !(arg == entry.name || entry.name + "=" <= arg)
      {
        var j :| 0 <= j < |table| && table[j] == entry;
        NameMatchesIff(entry.name, arg);
      }
    }
  }

  // An operand returned in `-` mode has code 1; every call first forgets an old '?'.
  lemma OperandIsCodeOne(cfg: Config, word: string, r: Regs)
    ensures Code(Some(Operand(word))) == 1 && Stored(cfg, r, Operand(word)) == r.(optarg := Some(word))
    ensures Cleared(r) == if r.optopt == '?' as int then r.(optopt := 0) else r
    ensures Code(None) == -1
  {
  }

  // An element is an option when it is a '-' with something behind it.
  lemma OptionElements(word: string)
    ensures IsOption(word) <==> |word| > 1 && word[0] == '-'
  {
  }

  // optind 0 starts over: at element 1, at its first character, and in the mode that the option
  // string asks for now; otherwise the mode of the first call stays.
  lemma {:induction false} ResetMeans(cfg: Config, s: Scan)
    ensures var b := Begin(cfg, s);
            var asked := if cfg.optstring != "" && cfg.optstring[0] == '+' then RequireOrder
                         else if cfg.optstring != "" && cfg.optstring[0] == '-' then ReturnInOrder
                         else Permute;
            && b.argv == s.argv && b.start == s.start && b.end == s.end
            && (s.optind == 0 ==> b.optind == 1 && b.next == "" && b.mode == Some(asked))
            && (s.optind != 0 ==>
                  b.optind == s.optind && b.next == s.next && b.mode == if s.mode.None? then Some(asked) else s.mode)
            && b.regs.optopt == (if s.regs.optopt == '?' as int then 0 else s.regs.optopt)
            && b.regs.optarg == s.regs.optarg && b.regs.longindex == s.regs.longindex && b.regs.flags == s.regs.flags
  {
  }

  // The load test's own options, with the argument of -a missing.
  lemma {:induction false} LoadTestMissesAnArgument()
    ensures var cfg, s := Config("tsa:n:rh", None, false), Fresh(["loadtest", "-a"], Regs(None, 0, None, map[]));
            InRun(cfg, s) && Reported(Run(cfg, s).0) == [('?' as int, None)]
  {
    hide Run, Finished, NextDecode;
    var cfg, args, regs := Config("tsa:n:rh", None, false), ["loadtest", "-a"], Regs(None, 0, None, map[]);
    RunRefinesParse(cfg, args, regs);
    assert args[1..] == ["-a"] && ["-a"][1..] == [] && "-a"[1..] == "a";
    KnownCharacter(cfg, "tsa:n:rh", 2, "a", [], regs);
    ElementParse(cfg, Permute, ["-a"]);
    EmptyParse(cfg, Permute);
    var event := NextDecode(cfg, "a", []).event;
    assert Parse(cfg, Permute, ["-a"]).events == [event];
    assert [event][1..] == [];
    assert Replay(cfg, regs, [event]) == [(event, Stored(cfg, regs, event))];
  }
}
