// How ya_getopt reads one option element: a pure account of one call of
// ya_getopt_shortopts / ya_getopt_longopts, given the unread characters of the
// element and the argv elements that follow it.
module GetoptDecode {
  import opened Common

  datatype HasArg = NoArgument | RequiredArgument | OptionalArgument

  // `flag` names the caller's int variable, None is the null pointer.
  datatype LongOption = LongOption(name: string, hasArg: HasArg, flag: Option<nat>, val: int)

  datatype Mode = Permute | RequireOrder | ReturnInOrder

  // The arguments a caller passes to every call of one run.
  datatype Config = Config(optstring: string, longopts: Option<seq<LongOption>>, longOnly: bool)

  // ya_getopt_long_only dereferences its table unconditionally.
  predicate ValidConfig(cfg: Config) {
    cfg.longOnly ==> cfg.longopts.Some?
  }

  // ya_optarg is left alone by some error returns.
  datatype ArgEffect = Kept | Assigned(value: Option<string>)

  // What one successful call reports: an operand (code 1 in `-` mode) or an option
  // with the values it stores in ya_optarg, ya_optopt and *longindex.
  datatype Event =
    | Operand(word: string)
    | Opt(code: int, arg: ArgEffect, bad: Option<int>, index: Option<nat>)

  // `left` holds the unread characters of the element (empty: ya_optnext is NULL) and
  // `used` counts the argv elements that ya_optind stepped over.
  datatype Decoded = Decoded(event: Event, left: string, used: nat)

  const QUESTION := '?' as int
  const COLON := ':' as int

  predicate IsOption(arg: string) {
    |arg| >= 2 && arg[0] == '-'
  }

  function ModeOf(optstring: string): Mode {
    if optstring != "" && optstring[0] == '+' then RequireOrder
    else if optstring != "" && optstring[0] == '-' then ReturnInOrder
    else Permute
  }

  // The option characters, without the leading mode character.
  function Chars(cfg: Config): string {
    if cfg.optstring != "" && cfg.optstring[0] in "+-" then cfg.optstring[1..] else cfg.optstring
  }

  function MissingCode(cfg: Config): int {
    if Chars(cfg) != "" && Chars(cfg)[0] == ':' then COLON else QUESTION
  }

  // strchr: the first position of `c`, or |s|.
  function IndexOf(s: string, c: char): (k: nat)
    ensures k <= |s|
    ensures k < |s| ==> s[k] == c
    ensures forall j :: 0 <= j < k ==> s[j] != c
  {
    if s == "" || s[0] == c then 0
    else 1 + IndexOf(s[1..], c)
  }

  predicate ColonAt(s: string, k: nat) {
    k < |s| && s[k] == ':'
  }

  function ShortDecode(cfg: Config, chars: string, rest: seq<string>): (d: Decoded)
    requires chars != ""
  {
    var os, k := Chars(cfg), IndexOf(Chars(cfg), chars[0]);
    var c := chars[0] as int;
    var last := if |chars| == 1 then 1 else 0;
    if k == |os| then
      if cfg.longOnly then Decoded(Opt(QUESTION, Assigned(None), None, None), "", 1)
      else Decoded(Opt(QUESTION, Assigned(None), Some(c), None), chars[1..], last)
    else if !ColonAt(os, k + 1) then
      Decoded(Opt(c, Assigned(None), None, None), chars[1..], last)
    else if |chars| > 1 then
      Decoded(Opt(c, Assigned(Some(chars[1..])), None, None), "", 1)
    else if ColonAt(os, k + 2) then
      Decoded(Opt(c, Assigned(None), None, None), "", 1)
    else if rest == [] then
      Decoded(Opt(MissingCode(cfg), Assigned(None), Some(c), None), "", 1)
    else
      Decoded(Opt(c, Assigned(Some(rest[0])), None, None), "", 2)
  }

  // The whole name, followed by the end of the word or by '='.
  predicate NameMatches(name: string, arg: string) {
    && name <= arg
    && (|arg| == |name| || arg[|name|] == '=')
  }

  // The first table entry whose name matches, or |table|.
  function LongIndex(table: seq<LongOption>, arg: string, from: nat): (k: nat)
    requires from <= |table|
    ensures from <= k <= |table|
    ensures k < |table| ==> NameMatches(table[k].name, arg)
    ensures forall j :: from <= j < k ==> !NameMatches(table[j].name, arg)
    decreases |table| - from
  {
    if from == |table| || NameMatches(table[from].name, arg) then from
    else LongIndex(table, arg, from + 1)
  }

  function Found(entry: LongOption, k: nat, arg: Option<string>): Event {
    Opt(if entry.flag.Some? then 0 else entry.val, Assigned(arg), None, Some(k))
  }

  function EntryDecode(cfg: Config, entry: LongOption, k: nat, arg: string, rest: seq<string>): Decoded
    requires NameMatches(entry.name, arg)
  {
    if |arg| > |entry.name| then
      if entry.hasArg.NoArgument? then Decoded(Opt(QUESTION, Assigned(None), Some(entry.val), None), "", 1)
      else Decoded(Found(entry, k, Some(arg[|entry.name| + 1..])), "", 1)
    else if !entry.hasArg.RequiredArgument? then
      Decoded(Found(entry, k, None), "", 1)
    else if rest == [] then
      Decoded(Opt(MissingCode(cfg), Assigned(None), Some(entry.val), None), "", 1)
    else
      Decoded(Found(entry, k, Some(rest[0])), "", 2)
  }

  // None when no entry matches.
  function LongDecode(cfg: Config, arg: string, rest: seq<string>): (d: Option<Decoded>)
    requires cfg.longopts.Some?
    ensures d.Some? ==> d.value.left == ""
  {
    var table := cfg.longopts.value;
    var k := LongIndex(table, arg, 0);
    if k == |table| then None else Some(EntryDecode(cfg, table[k], k, arg, rest))
  }

  // One call on the unread characters of an element.
  function NextDecode(cfg: Config, chars: string, rest: seq<string>): (d: Decoded)
    requires chars != "" && ValidConfig(cfg)
    ensures |d.left| < |chars|
    ensures d.left == "" <==> d.used > 0
    ensures d.used <= 2 && d.used <= 1 + |rest|
    ensures d.event.Opt?
  {
    var long := if cfg.longOnly then LongDecode(cfg, chars, rest) else None;
    if long.Some? then long.value else ShortDecode(cfg, chars, rest)
  }

  predicate IsLong(cfg: Config, word: string)
    requires |word| >= 2
  {
    cfg.longopts.Some? && word[1] == '-'
  }

  // The first call on a fresh option element.
  function FirstDecode(cfg: Config, word: string, rest: seq<string>): (d: Decoded)
    requires IsOption(word) && ValidConfig(cfg)
    ensures |d.left| < |word| - 1
    ensures d.left == "" <==> d.used > 0
    ensures d.used <= 2 && d.used <= 1 + |rest|
    ensures d.event.Opt?
  {
    if IsLong(cfg, word) then
      var long := LongDecode(cfg, word[2..], rest);
      if long.Some? then long.value else Decoded(Opt(QUESTION, Kept, None, None), "", 1)
    else NextDecode(cfg, word[1..], rest)
  }
}
