// The conventions of section 12.2 of the XBD volume of POSIX.1-2017, with the GNU long options,
// as a way of WRITING command lines; parsing what was written gives back what was meant.
module GetoptRender {
  import opened Common
  import opened GetoptDecode
  import opened GetoptParse

  // One thing a user wants to say. `arg` None is no argument; `joined` puts the argument into
  // the same element as the option.
  datatype Item =
    | Plain(word: string)
    | Short(flags: string, c: char, arg: Option<string>, joined: bool)
    | Long(k: nat, arg: Option<string>, joined: bool)

  // Which kind of option the character string declares `c` to be.
  ghost predicate Declares(cfg: Config, c: char, kind: HasArg) {
    var os := Chars(cfg);
    exists i :: 0 <= i < |os| && os[i] == c && (forall j :: 0 <= j < i ==> os[j] != c) && KindAt(os, i) == kind
  }

  function KindAt(os: string, i: nat): HasArg {
    if !ColonAt(os, i + 1) then NoArgument
    else if !ColonAt(os, i + 2) then RequiredArgument
    else OptionalArgument
  }

  // Long names are non-empty, contain no '=' and differ.
  ghost predicate ProperTable(table: seq<LongOption>) {
    && (forall entry <- table :: entry.name != "" && '=' !in entry.name)
    && (forall i, j :: 0 <= i < j < |table| ==> table[i].name != table[j].name)
  }

  ghost predicate ArgFits(kind: HasArg, arg: Option<string>, joined: bool) {
    match kind
    case NoArgument => arg.None?
    case RequiredArgument => arg.Some?
    case OptionalArgument => arg.Some? ==> joined
  }

  ghost predicate Legal(cfg: Config, item: Item) {
    match item
    case Plain(word) => !IsOption(word)
    case Short(flags, c, arg, joined) =>
      && (flags + [c])[0] != '-'
      && (forall f <- flags :: Declares(cfg, f, NoArgument))
      && (exists kind :: Declares(cfg, c, kind) && ArgFits(kind, arg, joined))
      && (arg.Some? && joined ==> arg.value != "")
    case Long(k, arg, joined) =>
      && cfg.longopts.Some? && k < |cfg.longopts.value|
      && ArgFits(cfg.longopts.value[k].hasArg, arg, joined)
  }

  predicate Known(cfg: Config, item: Item) {
    item.Long? ==> cfg.longopts.Some? && item.k < |cfg.longopts.value|
  }

  function Render(cfg: Config, item: Item): seq<string>
    requires Known(cfg, item)
  {
    match item
    case Plain(word) => [word]
    case Short(flags, c, arg, joined) =>
      if arg.None? then ["-" + flags + [c]]
      else if joined then ["-" + flags + [c] + arg.value]
      else ["-" + flags + [c], arg.value]
    case Long(k, arg, joined) =>
      var name := cfg.longopts.value[k].name;
      if arg.None? then ["--" + name]
      else if joined then ["--" + name + "=" + arg.value]
      else ["--" + name, arg.value]
  }

  function FlagEvents(flags: string): seq<Event> {
    if flags == "" then []
    else [Opt(flags[0] as int, Assigned(None), None, None)] + FlagEvents(flags[1..])
  }

  function Meaning(cfg: Config, item: Item): seq<Event>
    requires Known(cfg, item)
  {
    match item
    case Plain(word) => []
    case Short(flags, c, arg, _) => FlagEvents(flags) + [Opt(c as int, Assigned(arg), None, None)]
    case Long(k, arg, _) => [Found(cfg.longopts.value[k], k, arg)]
  }

  ghost predicate AllLegal(cfg: Config, items: seq<Item>) {
    forall item <- items :: Legal(cfg, item)
  }

  ghost function RenderAll(cfg: Config, items: seq<Item>): seq<string>
    requires AllLegal(cfg, items)
  {
    if items == [] then []
    else
      assert Legal(cfg, items[0]);
      Render(cfg, items[0]) + RenderAll(cfg, items[1..])
  }

  // What a permuting parse should make of the items.
  ghost function Meant(cfg: Config, items: seq<Item>): Parsed
    requires AllLegal(cfg, items)
  {
    if items == [] then Parsed([], [], [], [])
    else
      assert Legal(cfg, items[0]);
      var p, words := Meant(cfg, items[1..]), Render(cfg, items[0]);
      if items[0].Plain? then p.(operands := words + p.operands)
      else p.(events := Meaning(cfg, items[0]) + p.events, consumed := words + p.consumed)
  }

  lemma {:induction false} DeclaredIndex(cfg: Config, c: char, kind: HasArg)
    requires Declares(cfg, c, kind)
    ensures var os := Chars(cfg); IndexOf(os, c) < |os| && KindAt(os, IndexOf(os, c)) == kind
  {
    var os := Chars(cfg);
    var i :| 0 <= i < |os| && os[i] == c && (forall j :: 0 <= j < i ==> os[j] != c) && KindAt(os, i) == kind;
    assert IndexOf(os, c) == i;
  }

  lemma {:induction false} MatchesOwnName(other: string, name: string, suffix: string)
    requires '=' !in name && '=' !in other && (suffix == "" || suffix[0] == '=')
    ensures NameMatches(other, name + suffix) <==> other == name
  {
    var arg := name + suffix;
    assert |other| < |name| ==> arg[|other|] == name[|other|];
    assert suffix != "" ==> arg[|name|] == '=';
    assert |other| == |name| ==> arg[..|other|] == name;
    assert other <= arg ==> arg[..|other|] == other;
  }

  lemma {:induction false} NameIndex(table: seq<LongOption>, k: nat, suffix: string)
    requires ProperTable(table) && k < |table|
    requires suffix == "" || suffix[0] == '='
    ensures LongIndex(table, table[k].name + suffix, 0) == k
  {
    forall j | 0 <= j < |table|
      ensures NameMatches(table[j].name, table[k].name + suffix) <==> j == k
    {
      MatchesOwnName(table[j].name, table[k].name, suffix);
    }
  }

  lemma {:induction false} FlagDecode(cfg: Config, chars: string, rest: seq<string>)
    requires !cfg.longOnly && chars != "" && Declares(cfg, chars[0], NoArgument)
    ensures NextDecode(cfg, chars, rest) ==
            Decoded(Opt(chars[0] as int, Assigned(None), None, None), chars[1..], if |chars| == 1 then 1 else 0)
  {
    DeclaredIndex(cfg, chars[0], NoArgument);
  }

  lemma {:induction false} LastDecode(cfg: Config, c: char, arg: Option<string>, joined: bool, kind: HasArg,
                                      rest: seq<string>)
    requires !cfg.longOnly && Declares(cfg, c, kind) && ArgFits(kind, arg, joined)
    requires arg.Some? && joined ==> arg.value != ""
    requires arg.Some? && !joined ==> rest != [] && rest[0] == arg.value
    ensures NextDecode(cfg, [c] + (if arg.Some? && joined then arg.value else ""), rest) ==
            Decoded(Opt(c as int, Assigned(arg), None, None), "", if arg.Some? && !joined then 2 else 1)
  {
    hide Declares, IndexOf, Chars;
    DeclaredIndex(cfg, c, kind);
    var chars := [c] + (if arg.Some? && joined then arg.value else "");
    assert chars[1..] == if arg.Some? && joined then arg.value else "";
  }

  // The unread characters `flags` + c + joined argument are read one flag at a time.
  lemma {:induction false} ClusterReadsBack(cfg: Config, flags: string, c: char, arg: Option<string>, joined: bool,
                                            kind: HasArg, chars: string, rest: seq<string>)
    requires !cfg.longOnly
    requires forall f <- flags :: Declares(cfg, f, NoArgument)
    requires Declares(cfg, c, kind) && ArgFits(kind, arg, joined)
    requires arg.Some? && joined ==> arg.value != ""
    requires chars == flags + [c] + (if arg.Some? && joined then arg.value else "")
    requires arg.Some? && !joined ==> rest != [] && rest[0] == arg.value
    ensures Cluster(cfg, chars, rest) == (FlagEvents(flags) + [Opt(c as int, Assigned(arg), None, None)],
                                          if arg.Some? && !joined then 2 else 1)
    decreases |flags|
  {
    hide Declares, NextDecode;
    var last := [Opt(c as int, Assigned(arg), None, None)];
    var joint := if arg.Some? && joined then arg.value else "";
    if flags == "" {
      assert chars == [c] + joint && FlagEvents(flags) + last == last;
      LastDecode(cfg, c, arg, joined, kind, rest);
    } else {
      assert flags[0] in flags;
      FlagDecode(cfg, chars, rest);
      assert chars[1..] == flags[1..] + [c] + joint;
      ClusterReadsBack(cfg, flags[1..], c, arg, joined, kind, chars[1..], rest);
      assert FlagEvents(flags) + last == [FlagEvents(flags)[0]] + (FlagEvents(flags[1..]) + last);
    }
  }

  lemma {:induction false} ShortReadsBack(cfg: Config, item: Item, words: seq<string>)
    requires !cfg.longOnly && Legal(cfg, item) && item.Short?
    ensures var all := Render(cfg, item) + words;
            && IsOption(all[0]) && all[0] != "--"
            && Continue(cfg, FirstDecode(cfg, all[0], all[1..]), all[1..]) == (Meaning(cfg, item), |Render(cfg, item)|)
  {
    hide NextDecode, Declares, LongDecode;
    var all := Render(cfg, item) + words;
    var Short(flags, c, arg, joined) := item;
    var kind :| Declares(cfg, c, kind) && ArgFits(kind, arg, joined);
    var chars := flags + [c] + (if arg.Some? && joined then arg.value else "");
    assert all[0] == "-" + chars;
    assert all[0][1] == chars[0] == (flags + [c])[0];
    assert all[0][1..] == chars;
    ClusterReadsBack(cfg, flags, c, arg, joined, kind, chars, all[1..]);
    assert Cluster(cfg, chars, all[1..]) == Continue(cfg, NextDecode(cfg, chars, all[1..]), all[1..]);
  }

  lemma {:induction false} LongReadsBack(cfg: Config, item: Item, words: seq<string>)
    requires !cfg.longOnly && cfg.longopts.Some? && ProperTable(cfg.longopts.value)
    requires Legal(cfg, item) && item.Long?
    ensures var all := Render(cfg, item) + words;
            && IsOption(all[0]) && all[0] != "--"
            && Continue(cfg, FirstDecode(cfg, all[0], all[1..]), all[1..]) == (Meaning(cfg, item), |Render(cfg, item)|)
  {
    hide NextDecode, LongIndex, ProperTable;
    var all := Render(cfg, item) + words;
    var Long(k, arg, joined) := item;
    var entry := cfg.longopts.value[k];
    var suffix := if arg.Some? && joined then "=" + arg.value else "";
    NonEmptyName(cfg.longopts.value, k);
    assert all[0][2..] == entry.name + suffix;
    NameIndex(cfg.longopts.value, k, suffix);
    MatchesOwnName(entry.name, entry.name, suffix);
    assert suffix != "" ==> (entry.name + suffix)[|entry.name| + 1..] == arg.value;
  }

  lemma NonEmptyName(table: seq<LongOption>, k: nat)
    requires ProperTable(table) && k < |table|
    ensures table[k].name != "" && '=' !in table[k].name
  {
  }

  // What a parse reports that makes of a list what `p` says and goes on as `q`.
  function Joined(p: Parsed, q: Parsed): Parsed {
    Parsed(p.events + q.events, p.consumed + q.consumed, p.operands + q.operands, q.tail)
  }

  // Whatever follows it, a command line written by the conventions, options and operands in any
  // order, is read as exactly what was meant, and the parse goes on behind it.
  lemma {:induction false} ParseReadsBack(cfg: Config, items: seq<Item>, words: seq<string>)
    requires !cfg.longOnly && (cfg.longopts.Some? ==> ProperTable(cfg.longopts.value))
    requires AllLegal(cfg, items)
    ensures Parse(cfg, Permute, RenderAll(cfg, items) + words) == Joined(Meant(cfg, items), Parse(cfg, Permute, words))
    decreases |items|
  {
    hide Parse, Continue, FirstDecode, Legal;
    var p := Parse(cfg, Permute, words);
    if items == [] {
      assert [] + words == words && [] + p.events == p.events;
      assert [] + p.consumed == p.consumed && [] + p.operands == p.operands;
    } else {
      var item, more := items[0], RenderAll(cfg, items[1..]) + words;
      assert Legal(cfg, item);
      LegalIsKnown(cfg, item);
      var head := Render(cfg, item);
      var all := head + more;
      assert RenderAll(cfg, items) + words == all;
      ParseReadsBack(cfg, items[1..], words);
      assert all[|head|..] == more && all[..|head|] == head;
      var q := Meant(cfg, items[1..]);
      if item.Plain? {
        PlainIsOperand(cfg, item);
        OperandParse(cfg, Permute, all);
        assert head + (q.operands + p.operands) == head + q.operands + p.operands;
      } else {
        if item.Short? {
          ShortReadsBack(cfg, item, more);
        } else {
          LongReadsBack(cfg, item, more);
        }
        ElementParse(cfg, Permute, all);
        assert Meaning(cfg, item) + (q.events + p.events) == Meaning(cfg, item) + q.events + p.events;
        assert head + (q.consumed + p.consumed) == head + q.consumed + p.consumed;
      }
    }
  }

  // A "--" behind it ends the options: the rest is left alone.
  lemma {:induction false} ParseStopsAtDashes(cfg: Config, items: seq<Item>, words: seq<string>)
    requires !cfg.longOnly && (cfg.longopts.Some? ==> ProperTable(cfg.longopts.value))
    requires AllLegal(cfg, items)
    ensures Parse(cfg, Permute, RenderAll(cfg, items) + (["--"] + words)) ==
            Meant(cfg, items).(tail := ["--"] + words)
  {
    ParseReadsBack(cfg, items, ["--"] + words);
    var p := Meant(cfg, items);
    assert p.events + [] == p.events && p.consumed + [] == p.consumed && p.operands + [] == p.operands;
  }

  // ---- Mistakes ----

  datatype Mistake =
    | UnknownShort(flags: string, c: char)
    | MissingShort(flags: string, c: char)
    | UnknownLong(text: string)
    | MissingLong(k: nat)
    | UnwantedLong(k: nat, value: string)

  // A missing argument is only missing at the end of the list.
  ghost predicate IsMistake(cfg: Config, m: Mistake, words: seq<string>) {
    match m
    case UnknownShort(flags, c) =>
      (flags + [c])[0] != '-' && (forall f <- flags :: Declares(cfg, f, NoArgument)) && c !in Chars(cfg)
    case MissingShort(flags, c) =>
      (flags + [c])[0] != '-' && (forall f <- flags :: Declares(cfg, f, NoArgument))
      && Declares(cfg, c, RequiredArgument) && words == []
    case UnknownLong(text) =>
      text != "" && cfg.longopts.Some? && forall entry <- cfg.longopts.value :: !NameMatches(entry.name, text)
    case MissingLong(k) =>
      cfg.longopts.Some? && k < |cfg.longopts.value| && cfg.longopts.value[k].hasArg.RequiredArgument? && words == []
    case UnwantedLong(k, _) =>
      cfg.longopts.Some? && k < |cfg.longopts.value| && cfg.longopts.value[k].hasArg.NoArgument?
  }

  ghost function Mistaken(cfg: Config, m: Mistake, words: seq<string>): string
    requires IsMistake(cfg, m, words)
  {
    match m
    case UnknownShort(flags, c) => "-" + flags + [c]
    case MissingShort(flags, c) => "-" + flags + [c]
    case UnknownLong(text) => "--" + text
    case MissingLong(k) => "--" + cfg.longopts.value[k].name
    case UnwantedLong(k, value) => "--" + cfg.longopts.value[k].name + "=" + value
  }

  // The offending option is in ya_optopt, except for an unknown long name. A missing argument is
  // told apart by ':' when the caller asked for it.
  ghost function Complaint(cfg: Config, m: Mistake, words: seq<string>): seq<Event>
    requires IsMistake(cfg, m, words)
  {
    var missing := if AsksForColon(cfg.optstring) then ':' as int else '?' as int;
    match m
    case UnknownShort(flags, c) => FlagEvents(flags) + [Opt('?' as int, Assigned(None), Some(c as int), None)]
    case MissingShort(flags, c) => FlagEvents(flags) + [Opt(missing, Assigned(None), Some(c as int), None)]
    case UnknownLong(_) => [Opt('?' as int, Kept, None, None)]
    case MissingLong(k) => [Opt(missing, Assigned(None), Some(cfg.longopts.value[k].val), None)]
    case UnwantedLong(k, _) => [Opt('?' as int, Assigned(None), Some(cfg.longopts.value[k].val), None)]
  }

  // A ':' in front, or behind a mode character.
  predicate AsksForColon(optstring: string) {
    || (|optstring| > 0 && optstring[0] == ':')
    || (|optstring| > 1 && (optstring[0] == '+' || optstring[0] == '-') && optstring[1] == ':')
  }

  lemma {:induction false} BadCluster(cfg: Config, flags: string, c: char, bad: Event, rest: seq<string>)
    requires !cfg.longOnly && forall f <- flags :: Declares(cfg, f, NoArgument)
    requires NextDecode(cfg, [c], rest) == Decoded(bad, "", 1)
    ensures Cluster(cfg, flags + [c], rest) == (FlagEvents(flags) + [bad], 1)
    decreases |flags|
  {
    hide Declares, NextDecode;
    if flags == "" {
      assert flags + [c] == [c] && FlagEvents(flags) + [bad] == [bad];
    } else {
      assert flags[0] in flags;
      FlagDecode(cfg, flags + [c], rest);
      assert (flags + [c])[1..] == flags[1..] + [c];
      BadCluster(cfg, flags[1..], c, bad, rest);
      assert FlagEvents(flags) + [bad] == [FlagEvents(flags)[0]] + (FlagEvents(flags[1..]) + [bad]);
    }
  }

  lemma {:induction false} BadLast(cfg: Config, m: Mistake, words: seq<string>)
    requires !cfg.longOnly && IsMistake(cfg, m, words) && (m.UnknownShort? || m.MissingShort?)
    ensures NextDecode(cfg, [m.c], words)
         == Decoded(Opt(if m.MissingShort? && AsksForColon(cfg.optstring) then ':' as int else '?' as int, Assigned(None), Some(m.c as int), None), "", 1)
  {
    if m.MissingShort? {
      DeclaredIndex(cfg, m.c, RequiredArgument);
    }
  }

  lemma {:induction false} MistakeIsReported(cfg: Config, m: Mistake, words: seq<string>)
    requires !cfg.longOnly && (cfg.longopts.Some? ==> ProperTable(cfg.longopts.value))
    requires IsMistake(cfg, m, words)
    ensures var word := Mistaken(cfg, m, words);
            && IsOption(word) && word != "--"
            && Continue(cfg, FirstDecode(cfg, word, words), words) == (Complaint(cfg, m, words), 1)
  {
    hide NextDecode, LongIndex, Declares, ProperTable;
    var word := Mistaken(cfg, m, words);
    if m.UnknownShort? || m.MissingShort? {
      var chars := m.flags + [m.c];
      assert word[1] == chars[0] && word[1..] == chars;
      BadLast(cfg, m, words);
      BadCluster(cfg, m.flags, m.c, NextDecode(cfg, [m.c], words).event, words);
      assert Cluster(cfg, chars, words) == Continue(cfg, NextDecode(cfg, chars, words), words);
    } else if m.UnknownLong? {
      assert word[2..] == m.text;
    } else {
      var entry := cfg.longopts.value[m.k];
      var suffix := if m.UnwantedLong? then "=" + m.value else "";
      NonEmptyName(cfg.longopts.value, m.k);
      assert word[2..] == entry.name + suffix;
      NameIndex(cfg.longopts.value, m.k, suffix);
      MatchesOwnName(entry.name, entry.name, suffix);
    }
  }

  // A mistake behind a proper beginning is reported as what it is, and the parse goes on with
  // the element behind it.
  lemma {:induction false} ParseReportsMistake(cfg: Config, items: seq<Item>, m: Mistake, words: seq<string>)
    requires !cfg.longOnly && (cfg.longopts.Some? ==> ProperTable(cfg.longopts.value))
    requires AllLegal(cfg, items) && IsMistake(cfg, m, words)
    ensures var word := Mistaken(cfg, m, words);
            Parse(cfg, Permute, RenderAll(cfg, items) + ([word] + words)) ==
            Joined(Meant(cfg, items),
                   Joined(Parsed(Complaint(cfg, m, words), [word], [], []), Parse(cfg, Permute, words)))
  {
    hide Parse, Continue, FirstDecode, IsMistake, AllLegal, RenderAll, Meant, Complaint, Mistaken;
    var word := Mistaken(cfg, m, words);
    var all := [word] + words;
    ParseReadsBack(cfg, items, all);
    MistakeIsReported(cfg, m, words);
    ElementParse(cfg, Permute, all);
    assert all[1..] == words && all[..1] == [word];
    var p := Parse(cfg, Permute, words);
    assert [] + p.operands == p.operands;
  }

  lemma LegalIsKnown(cfg: Config, item: Item)
    requires Legal(cfg, item)
    ensures Known(cfg, item)
  {
  }

  lemma PlainIsOperand(cfg: Config, item: Item)
    requires Legal(cfg, item) && item.Plain?
    ensures !IsOption(item.word)
  {
  }
}
