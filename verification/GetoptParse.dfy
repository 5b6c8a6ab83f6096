// A pure left-to-right reading of an argument list, with no positions and no rearranging,
// and the relation between the three scanning modes.
module GetoptParse {
  import opened GetoptDecode

  // `consumed` are the elements stepped over in place, `operands` the elements skipped on the
  // way, `tail` what is left where the reading stopped.
  datatype Parsed = Parsed(events: seq<Event>, consumed: seq<string>, operands: seq<string>, tail: seq<string>)

  // Everything the unread characters `chars` of an element report, and how many elements
  // (this one included) that takes.
  function Cluster(cfg: Config, chars: string, rest: seq<string>): (r: (seq<Event>, nat))
    requires chars != "" && ValidConfig(cfg)
    ensures 0 < |r.0| <= |chars|
    ensures 1 <= r.1 <= 1 + |rest|
    decreases |chars|, 0
  {
    Continue(cfg, NextDecode(cfg, chars, rest), rest)
  }

  function Continue(cfg: Config, d: Decoded, rest: seq<string>): (r: (seq<Event>, nat))
    requires ValidConfig(cfg) && (d.left == "" <==> d.used > 0) && d.used <= 1 + |rest|
    ensures 0 < |r.0| <= 1 + |d.left|
    ensures 1 <= r.1 <= 1 + |rest|
    decreases |d.left|, 1
  {
    if d.left == "" then ([d.event], d.used)
    else
      var (more, used) := Cluster(cfg, d.left, rest);
      ([d.event] + more, used)
  }

  function Parse(cfg: Config, mode: Mode, words: seq<string>): (p: Parsed)
    requires ValidConfig(cfg)
    decreases |words|
  {
    if words == [] then Parsed([], [], [], [])
    else if !IsOption(words[0]) then
      match mode
      case RequireOrder => Parsed([], [], [], words)
      case ReturnInOrder =>
        var p := Parse(cfg, mode, words[1..]);
        p.(events := [Operand(words[0])] + p.events, consumed := [words[0]] + p.consumed)
      case Permute =>
        var p := Parse(cfg, mode, words[1..]);
        p.(operands := [words[0]] + p.operands)
    else if words[0] == "--" then Parsed([], [], [], words)
    else
      var (events, used) := Continue(cfg, FirstDecode(cfg, words[0], words[1..]), words[1..]);
      var p := Parse(cfg, mode, words[used..]);
      p.(events := events + p.events, consumed := words[..used] + p.consumed)
  }

  lemma EmptyParse(cfg: Config, mode: Mode)
    requires ValidConfig(cfg)
    ensures Parse(cfg, mode, []) == Parsed([], [], [], [])
  {
  }

  lemma {:induction false} ElementParse(cfg: Config, mode: Mode, words: seq<string>)
    requires ValidConfig(cfg) && words != [] && IsOption(words[0]) && words[0] != "--"
    ensures var (events, used) := Continue(cfg, FirstDecode(cfg, words[0], words[1..]), words[1..]);
            var p := Parse(cfg, mode, words[used..]);
            Parse(cfg, mode, words) == Parsed(events + p.events, words[..used] + p.consumed, p.operands, p.tail)
  {
  }

  lemma {:induction false} OperandParse(cfg: Config, mode: Mode, words: seq<string>)
    requires ValidConfig(cfg) && words != [] && !IsOption(words[0])
    ensures var p, q := Parse(cfg, mode, words), Parse(cfg, mode, words[1..]);
            match mode
            case RequireOrder => p == Parsed([], [], [], words)
            case ReturnInOrder => p == Parsed([Operand(words[0])] + q.events, [words[0]] + q.consumed, q.operands, q.tail)
            case Permute => p == q.(operands := [words[0]] + q.operands)
  {
  }

  // ---- Bounds ----

  function TotalLength(words: seq<string>): nat {
    if words == [] then 0 else |words[0]| + TotalLength(words[1..])
  }

  lemma {:induction false} TotalLengthDrop(words: seq<string>, n: nat)
    requires n <= |words|
    ensures TotalLength(words[n..]) <= TotalLength(words)
  {
    if n > 0 {
      TotalLengthDrop(words[1..], n - 1);
      assert words[n..] == words[1..][n - 1..];
    }
  }

  // The number of results never exceeds the number of characters plus the number of elements.
  lemma {:induction false} EventsBounded(cfg: Config, mode: Mode, words: seq<string>)
    requires ValidConfig(cfg)
    ensures |Parse(cfg, mode, words).events| <= TotalLength(words) + |words|
    decreases |words|
  {
    if words == [] || words[0] == "--" || (!IsOption(words[0]) && mode.RequireOrder?) {
    } else if !IsOption(words[0]) {
      EventsBounded(cfg, mode, words[1..]);
    } else {
      var used := Continue(cfg, FirstDecode(cfg, words[0], words[1..]), words[1..]).1;
      EventsBounded(cfg, mode, words[used..]);
      TotalLengthDrop(words[1..], used - 1);
      assert words[used..] == words[1..][used - 1..];
    }
  }

  // ---- Stable partition ----

  // `whole` is an interleaving of `a` and `b` that keeps the order of both, followed by `tail`.
  ghost predicate Shuffle(whole: seq<string>, a: seq<string>, b: seq<string>, tail: seq<string>)
    decreases |whole|
  {
    || (a == [] && b == [] && whole == tail)
    || (whole != [] && a != [] && whole[0] == a[0] && Shuffle(whole[1..], a[1..], b, tail))
    || (whole != [] && b != [] && whole[0] == b[0] && Shuffle(whole[1..], a, b[1..], tail))
  }

  lemma {:induction false} ShufflePrefix(prefix: seq<string>, whole: seq<string>, a: seq<string>, b: seq<string>, tail: seq<string>)
    requires Shuffle(whole, a, b, tail)
    ensures Shuffle(prefix + whole, prefix + a, b, tail)
    decreases |prefix|
  {
    if prefix == [] {
      assert prefix + whole == whole && prefix + a == a;
    } else {
      ShufflePrefix(prefix[1..], whole, a, b, tail);
      assert (prefix + whole)[1..] == prefix[1..] + whole;
      assert (prefix + a)[1..] == prefix[1..] + a;
    }
  }

  // Nothing of the list is lost, duplicated or reordered within its class, and a skipped
  // element is never an option element.
  lemma {:induction false} ParsePartitions(cfg: Config, mode: Mode, words: seq<string>)
    requires ValidConfig(cfg)
    ensures var p := Parse(cfg, mode, words);
            && Shuffle(words, p.consumed, p.operands, p.tail)
            && (forall w <- p.operands :: !IsOption(w))
            && (p.operands != [] ==> mode.Permute?)
    decreases |words|
  {
    if words == [] || words[0] == "--" || (!IsOption(words[0]) && mode.RequireOrder?) {
    } else if !IsOption(words[0]) {
      hide Parse;
      ParsePartitions(cfg, mode, words[1..]);
      OperandParse(cfg, mode, words);
      var p, q := Parse(cfg, mode, words), Parse(cfg, mode, words[1..]);
      assert mode.ReturnInOrder? ==> p.consumed[1..] == q.consumed;
      assert mode.Permute? ==> p.operands[1..] == q.operands;
    } else {
      hide Parse;
      var used := Continue(cfg, FirstDecode(cfg, words[0], words[1..]), words[1..]).1;
      var q := Parse(cfg, mode, words[used..]);
      ParsePartitions(cfg, mode, words[used..]);
      ElementParse(cfg, mode, words);
      ShufflePrefix(words[..used], words[used..], q.consumed, q.operands, q.tail);
      assert words[..used] + words[used..] == words;
    }
  }

  // ---- The three modes ----

  function WithoutOperands(events: seq<Event>): seq<Event> {
    if events == [] then []
    else if events[0].Operand? then WithoutOperands(events[1..])
    else [events[0]] + WithoutOperands(events[1..])
  }

  function OperandsIn(events: seq<Event>): seq<string> {
    if events == [] then []
    else if events[0].Operand? then [events[0].word] + OperandsIn(events[1..])
    else OperandsIn(events[1..])
  }

  function BeforeOperand(events: seq<Event>): seq<Event> {
    if events == [] || events[0].Operand? then []
    else [events[0]] + BeforeOperand(events[1..])
  }

  lemma {:induction false} ContinueReportsOptions(cfg: Config, d: Decoded, rest: seq<string>)
    requires ValidConfig(cfg) && (d.left == "" <==> d.used > 0) && d.used <= 1 + |rest| && d.event.Opt?
    ensures forall e <- Continue(cfg, d, rest).0 :: e.Opt?
    decreases |d.left|
  {
    if d.left != "" {
      ContinueReportsOptions(cfg, NextDecode(cfg, d.left, rest), rest);
    }
  }

  lemma {:induction false} OptionsPassThrough(options: seq<Event>, events: seq<Event>)
    requires forall e <- options :: e.Opt?
    ensures WithoutOperands(options + events) == options + WithoutOperands(events)
    ensures OperandsIn(options + events) == OperandsIn(events)
    ensures BeforeOperand(options + events) == options + BeforeOperand(events)
  {
    if options == [] {
      assert options + events == events;
    } else {
      hide WithoutOperands, OperandsIn, BeforeOperand;
      assert options[0].Opt? && (options + events)[0] == options[0];
      OneOption(options + events);
      OptionsPassThrough(options[1..], events);
      assert (options + events)[1..] == options[1..] + events;
      assert [options[0]] + (options[1..] + WithoutOperands(events)) == options + WithoutOperands(events);
      assert [options[0]] + (options[1..] + BeforeOperand(events)) == options + BeforeOperand(events);
    }
  }

  lemma OneOption(events: seq<Event>)
    requires events != [] && events[0].Opt?
    ensures WithoutOperands(events) == [events[0]] + WithoutOperands(events[1..])
    ensures OperandsIn(events) == OperandsIn(events[1..])
    ensures BeforeOperand(events) == [events[0]] + BeforeOperand(events[1..])
  {
  }

  // For every list: dropping the code-1 results of `-` mode gives the results of the permuting
  // mode, the dropped words are the operands the permuting mode moves to the end, and `+` mode
  // reports exactly what `-` mode reports before its first operand.
  lemma {:induction false} ModesAgree(cfg: Config, words: seq<string>)
    requires ValidConfig(cfg)
    ensures var inOrder := Parse(cfg, ReturnInOrder, words);
            && WithoutOperands(inOrder.events) == Parse(cfg, Permute, words).events
            && OperandsIn(inOrder.events) == Parse(cfg, Permute, words).operands
            && BeforeOperand(inOrder.events) == Parse(cfg, RequireOrder, words).events
            && inOrder.tail == Parse(cfg, Permute, words).tail
    decreases |words|
  {
    if words == [] || words[0] == "--" {
    } else if !IsOption(words[0]) {
      ModesAgree(cfg, words[1..]);
      var inOrder := Parse(cfg, ReturnInOrder, words);
      assert inOrder.events[1..] == Parse(cfg, ReturnInOrder, words[1..]).events;
    } else {
      var d := FirstDecode(cfg, words[0], words[1..]);
      var (events, used) := Continue(cfg, d, words[1..]);
      ModesAgree(cfg, words[used..]);
      ContinueReportsOptions(cfg, d, words[1..]);
      OptionsPassThrough(events, Parse(cfg, ReturnInOrder, words[used..]).events);
    }
  }

  // A block of operands in front of a list is skipped by the permuting mode.
  lemma {:induction false} OperandsFirst(cfg: Config, block: seq<string>, words: seq<string>)
    requires ValidConfig(cfg)
    requires forall w <- block :: !IsOption(w)
    ensures var p := Parse(cfg, Permute, words);
            Parse(cfg, Permute, block + words) == p.(operands := block + p.operands)
  {
    hide Parse;
    if block == [] {
      assert block + words == words;
      assert block + Parse(cfg, Permute, words).operands == Parse(cfg, Permute, words).operands;
    } else {
      OperandParse(cfg, Permute, block + words);
      OperandsFirst(cfg, block[1..], words);
      assert (block + words)[1..] == block[1..] + words;
      var p := Parse(cfg, Permute, words);
      assert [block[0]] + (block[1..] + p.operands) == block + p.operands;
    }
  }

  // A parse stops at the end, at a "--", or in front of the first operand in `+` mode.
  lemma {:induction false} ParseStops(cfg: Config, mode: Mode, words: seq<string>)
    requires ValidConfig(cfg)
    ensures var tail := Parse(cfg, mode, words).tail;
            && |tail| <= |words| && tail == words[|words| - |tail|..]
            && (tail != [] ==> tail[0] == "--" || (mode.RequireOrder? && !IsOption(tail[0])))
    decreases |words|
  {
    if words == [] || words[0] == "--" || (!IsOption(words[0]) && mode.RequireOrder?) {
    } else {
      var used := if !IsOption(words[0]) then 1
                  else Continue(cfg, FirstDecode(cfg, words[0], words[1..]), words[1..]).1;
      ParseStops(cfg, mode, words[used..]);
    }
  }

  // ---- What the configuration contributes ----

  lemma {:induction false} ClusterReadsChars(a: Config, b: Config, chars: string, rest: seq<string>)
    requires ValidConfig(a) && ValidConfig(b) && chars != ""
    requires Chars(a) == Chars(b) && a.longopts == b.longopts && a.longOnly == b.longOnly
    ensures Cluster(a, chars, rest) == Cluster(b, chars, rest)
    decreases |chars|
  {
    var d := NextDecode(a, chars, rest);
    assert d == NextDecode(b, chars, rest);
    if d.left != "" {
      ClusterReadsChars(a, b, d.left, rest);
    }
  }

  lemma {:induction false} ParseReadsChars(a: Config, b: Config, mode: Mode, words: seq<string>)
    requires ValidConfig(a) && ValidConfig(b)
    requires Chars(a) == Chars(b) && a.longopts == b.longopts && a.longOnly == b.longOnly
    ensures Parse(a, mode, words) == Parse(b, mode, words)
    decreases |words|
  {
    if words == [] || words[0] == "--" || (!IsOption(words[0]) && mode.RequireOrder?) {
    } else if !IsOption(words[0]) {
      ParseReadsChars(a, b, mode, words[1..]);
    } else {
      var d := FirstDecode(a, words[0], words[1..]);
      assert d == FirstDecode(b, words[0], words[1..]);
      if d.left != "" {
        ClusterReadsChars(a, b, d.left, words[1..]);
      }
      ParseReadsChars(a, b, mode, words[Continue(a, d, words[1..]).1..]);
    }
  }
}
