# Verified model of a socket server framework and its vendored components

This project models the behaviour of a C++ socket server framework (a poller, sharded worker
threads, line-oriented sessions) and of two libraries vendored with it: the argument scanner
`ya_getopt` of its load test and parts of the `doctest` test runner. Each component is written twice:
as a specification (functions and step systems on values) and, where the source updates state in
place, as a class or an array method that is proved equal to the specification. The properties are
proved about the specification, for every input, run or interleaving.

`dafny verify dfyconfig.toml` checks everything.

## The components

- **Argument scanner** (`GetoptDecode`, `GetoptParse`, `GetoptRun`, `Getopt`, `GetoptCases`, `GetoptModes`, `GetoptRender`). A call of
  getopt first rotates a skipped block of operands behind the option consumed by the call before, then
  scans and dispatches. `Getopt.Scanner` has the static variables as fields and permutes an array;
  `GetoptRun.Step` is one call as a transition; `GetoptParse.Parse` is a recursive left-to-right parse
  without any of this state. `Ahead` gives the parse of what a state has still to read, and each call
  takes one event from it. The rendering in `GetoptRender` writes command lines by the conventions of
  section 12.2 of the XBD volume of POSIX.1-2017, with GNU long options; parsing undoes it.
- **Test runner** (`Wildcmp`, `Subcases`, `MultiLane`, `SmallString`, `Xml`, `XmlWriter`, `CommaList`).
- **Dispatcher** (`Dispatcher`, `Coverage`, `Replies`, `Refinement`, `ShardQueues`, `LargeNotice`, `Server`). A
  step system of one main thread, n workers and the kernel with its table of open descriptors. A
  worker's pass is three steps (take, read, reply) under the lock of its shard, so anything else can
  happen in between. A session keeps its history: what each read returned and how much had arrived by
  then, how much had arrived at each notice, and each reply. The classes in `Server` are proved to perform
  these steps, one poll batch of `Server.MainLoop.Iterate` being a legal sequence of them.
- **Line framing** (`Framing`, `HeldBack`, `LineSession`). The loop as written, which keeps its search index
  over the erase, and the intended one, which searches each rest from its start.

## Where the code does not do what it is meant to

Each of these has a theorem with the exact condition and a lemma at a concrete input.

- A `--` reached while operands are waiting is not followed by a rotation, so `argv[optind..]` misses
  those operands (`GetoptRun.RunPartitions`; `GetoptRun.DashesHideAnOperand`).
- After a scan that ended with moved operands, setting `optind` to 0 does not restart at the first
  element, because `end` was left below `start` (`GetoptRun.ResetAfterRun`; `GetoptRun.ResetSkipsAnOperand`).
- An unknown long option leaves `optarg` alone, so in `-` mode it can show the operand before it, where
  the permuting mode shows the value of the last option (`GetoptModes.ReportsAgreeIff`;
  `GetoptModes.StaleOperandIsShown`).
- The line loop misses a line that is shorter than the line before it (`Framing.AsWrittenAgrees`,
  `LineSession.WrittenRunAgrees`). With a longer line behind it the two are joined
  (`Framing.AsWrittenMerges`); with nothing behind it the line is held back until more bytes arrive, so its
  client waits (`HeldBack.HeldBackIff`; `Framing.AsWrittenHoldsBack`).
- A `]]>` at the very beginning of a text is printed unescaped, because the test asks for `idx > 2`
  (`Xml.CdataEndIff`; `Xml.CdataEndLeaks`).
- The UTF-8 check lets the overlong four-byte form of U+0800 pass (`Xml.AcceptedValues`;
  `Xml.OverlongIsPrinted`).
- A lane counter's `fetch_add` returns the lane's old value, which is the counter's only when the other
  lanes add up to zero (`MultiLane.MultiLaneAtomic.FetchAdd`; `MultiLane.OtherLanesAreNotSeen`).
- One read per edge notice leaves bytes behind exactly when some run of notices up to the last one
  announces more than 16384 bytes each on average (`Coverage.AllReadIff`, for sessions of the system
  `Coverage.HandledMeansRead`; `LargeNotice.BytesStayBehind`).

## Model

| member | source | states |
|---|---|---|
| `GetoptDecode.LongIndex` | loadtest/ya_getopt.c:263-300 | The index found is that of the first table entry whose name is the argument or is followed in it by `=`; the table length if there is none. |
| `GetoptCases.KnownCharacter` | loadtest/ya_getopt.c:218-254 | For a character of the option string with no, one or two colons behind it: return code, `optarg`, `optopt` and what is read, for a flag, an argument in the same or the next element, an optional one left out, and a missing one, which gives `:` when the option string starts with `:` behind an optional mode character and `?` otherwise. |
| `GetoptCases.UnknownCharacter` | loadtest/ya_getopt.c:202-217 | For any other character `?`, with the character in `optopt`; in long-only mode the whole element is dropped and `optopt` stays. |
| `GetoptCases.KnownName` | loadtest/ya_getopt.c:256-318 | For the first table entry that fits: 0 and the flag variable or the entry's value, the table index, the argument behind `=` or in the next element; and the two mistakes, with the missing argument's code as above. |
| `GetoptCases.UnknownName` | loadtest/ya_getopt.c:263-307 | No entry is taken if and only if no name is the argument or is followed in it by `=`. |
| `GetoptCases.WhichReading` | loadtest/ya_getopt.c:173-194 | An element with two dashes is read as a name if there is a table, one with a single dash as a name first in long-only mode, otherwise by characters; an unknown name returns `?` and changes no variable. |
| `GetoptCases.OptionElements` | loadtest/ya_getopt.c:77-80 | An option is a dash with something behind it. |
| `GetoptCases.ResetMeans` | loadtest/ya_getopt.c:101-119 | With `optind` 0 a call starts at element 1, in front of its first character, in the mode the option string asks for; otherwise position and mode stay; an `optopt` of `?` is cleared and nothing else. |
| `GetoptCases.OperandIsCodeOne` | loadtest/ya_getopt.c:148-151 | An operand has code 1 and is in `optarg`; the end has code -1. |
| `GetoptCases.LoadTestMissesAnArgument` | loadtest/loadtest.cc:59-64 | `loadtest -a` reports `?` without an argument. |
| `GetoptParse.EventsBounded` | loadtest/ya_getopt.c:97-195 | A parse reports at most as many results as there are characters plus elements. |
| `GetoptParse.ParsePartitions` | loadtest/ya_getopt.c:121-172 | The original list is an order-keeping interleaving of consumed elements and operands, followed by the tail; no operand is an option, and only the permuting mode has any. |
| `GetoptParse.ParseStops` | loadtest/ya_getopt.c:141-176 | A parse stops only at the end, at a `--`, or in front of an operand in `+` mode, and its tail is a suffix of the list. |
| `GetoptParse.ModesAgree` | loadtest/ya_getopt.c:145-172 | Without its code-1 results `-` mode reports what the permuting mode reports, those results are the operands moved to the end, and `+` mode reports what comes before the first of them. |
| `GetoptParse.ParseReadsChars` | loadtest/ya_getopt.c:115-119 | Apart from choosing the mode, a leading `+` or `-` of the option string changes nothing. |
| `GetoptRun.StepKeepsWellFormed` | loadtest/ya_getopt.c:97-195 | From any well-formed state, also after -1, a reset or a stale block, a call stays within bounds and leaves a well-formed state over the same number of elements. |
| `GetoptRun.Calls` | loadtest/ya_getopt.c:97-195 | The same for every sequence of calls and resets. |
| `GetoptRun.ClampIdle` | loadtest/ya_getopt.c:124-127 | In a run the rotation never moves the index to zero or below: the clamp never fires. |
| `GetoptRun.RotateKeepsAhead` | loadtest/ya_getopt.c:121-139 | The deferred rotation changes neither what is still to be reported nor the final layout. |
| `GetoptRun.StepSimulates` | loadtest/ya_getopt.c:97-195 | One call returns exactly the first result of the pure parse of what was left and leaves the rest of it, or returns -1 when that parse is at its end, with the elements where the parse puts them. |
| `GetoptRun.StepProgress` | loadtest/ya_getopt.c:97-195 | Each call that is not -1 makes the number of results ahead smaller by one, although the rotation moves the index backwards. |
| `GetoptRun.RunIsAhead` | loadtest/ya_getopt.c:97-195 | From any state between two calls of a run, the remaining calls return the results ahead. |
| `GetoptRun.RunRefinesParse` | loadtest/ya_getopt.c:97-195 | For every argument list, option table and mode, the calls up to the first -1 return the results of the pure parse of the original list with the variables it sets, and argv ends as program name, consumed elements, operands, tail. |
| `GetoptRun.RunPartitions` | loadtest/ya_getopt.c:121-176 | argv ends as the stable partition of the original, a permutation of it, unchanged outside the permuting mode; `argv[optind..]` is every element that is not an option if and only if no `--` was reached while operands were waiting. |
| `GetoptRun.DashesHideAnOperand` | loadtest/ya_getopt.c:173-176 | For `prog x -- y` a caller finds only `y` behind `optind`. |
| `GetoptRun.RunIsBounded` | loadtest/ya_getopt.c:97-195 | A run reaches -1 after at most as many calls as there are characters and elements, plus one. |
| `GetoptRun.RunModesAgree` | loadtest/ya_getopt.c:63-75 | The agreement of the three modes on what each call decodes, for whole runs of calls; without a `--` the operands of `-` mode are the permuting mode's `argv[optind..]`. |
| `GetoptRun.ResetAfterRun` | loadtest/ya_getopt.c:109-139 | After a run, a reset through `optind = 0` restarts at element 1 if and only if the run had no operands or stopped at a `--`; argv is unchanged by it. |
| `GetoptRun.ResetSkipsAnOperand` | loadtest/ya_getopt.c:109-139 | For `prog x` the second scan starts behind `x`. |
| `Getopt.Scanner.constructor` | loadtest/ya_getopt.c:63-75 | The initial static variables are the fresh state of a run. |
| `Getopt.Scanner.CheckGnuExtension` | loadtest/ya_getopt.c:63-75 | The two mode variables agree with the mode the option string asks for. |
| `Getopt.Scanner.ShiftLeft` | loadtest/ya_getopt.c:130-135 | The inner loop is the left rotation of one segment by one, and touches nothing else. |
| `Getopt.Scanner.RotateBlock` | loadtest/ya_getopt.c:121-139 | The nested loops exchange the operand block and the consumed elements behind it in place, keeping both orders, and leave the index on the first moved operand. |
| `Getopt.Scanner.ShortOpts` | loadtest/ya_getopt.c:197-254 | Updates the variables and returns the code as decoded from the character and the following elements. |
| `Getopt.Scanner.LongOpts` | loadtest/ya_getopt.c:256-318 | Updates the variables and returns the code of the first matching table entry; an unknown name changes nothing in long-only mode. |
| `Getopt.Scanner.Prepare` | loadtest/ya_getopt.c:101-139 | The beginning of a call: clearing, mode check, reset, deferred rotation. |
| `Getopt.Scanner.SkipOperands` | loadtest/ya_getopt.c:156-170 | Skips exactly to the next option element and records the block; without one, only its start. |
| `Getopt.Scanner.Next` | loadtest/ya_getopt.c:97-195 | A call on the array and the static variables is the transition of the specification, code included. |
| `Getopt.OptionCodes` | loadtest/ya_getopt.c:97-195 | With no table value -1, a call that reports an option never returns -1. |
| `Getopt.ParseArgs` | loadtest/loadtest.cc:59-64 | The caller's loop terminates and sees the codes and arguments of the run. |
| `GetoptModes.ReportsAgreeIff` | loadtest/ya_getopt.c:145-172 | On codes and `optarg`: without its operands `-` mode shows the caller what the permuting mode shows if and only if no unknown long option comes when the value assigned last is an operand's and differs from the last option's; `+` mode always shows what `-` mode shows before its first operand. |
| `GetoptModes.ReplaysAgreeIff` | loadtest/ya_getopt.c:145-172 | The same for any list of decoded events and any two values of `optarg` to start from. |
| `GetoptModes.StaleOperandIsShown` | loadtest/ya_getopt.c:301-307 | For `prog x --zzz`, `-` mode shows `?` with `x` and the permuting mode `?` without a value. |
| `GetoptRender.ClusterReadsBack` | loadtest/ya_getopt.c:197-254 | Clustered flags with a last option and its joined or separate argument are read back one by one. |
| `GetoptRender.LongReadsBack` | loadtest/ya_getopt.c:256-318 | A written long option is read back as its own table entry, also when another name is a prefix of it. |
| `GetoptRender.ParseReadsBack` | loadtest/ya_getopt.c:97-318 | Every command line written by the conventions, options and operands in any order and followed by anything, is read back as exactly what was meant, and the parse goes on behind it. |
| `GetoptRender.ParseStopsAtDashes` | loadtest/ya_getopt.c:173-176 | A `--` behind it leaves all that follows alone, whatever it is. |
| `GetoptRender.MistakeIsReported` | loadtest/ya_getopt.c:202-307 | An unknown option, a missing argument or an argument that is not allowed gives its own code and offending option, in a cluster or as a long name, and uses one element. |
| `GetoptRender.ParseReportsMistake` | loadtest/ya_getopt.c:197-318 | A mistake behind a proper beginning is reported as what it is, and neither what comes before it nor what follows is read differently. |
| `Wildcmp.LastStarSuffices` | tests/doctest.h:4154-4168 | Once a later star is reached, matching from it decides as much as matching from the earlier star: no match is lost by backtracking to the last star only. |
| `Wildcmp.PlainMatches` | tests/doctest.h:4143-4145 | A pattern without `*` and `?` matches its own text only; without case sensitivity, exactly the texts that differ from it in the case of ASCII letters. |
| `Wildcmp.AnyOneMatches` | tests/doctest.h:4144 | `?` matches exactly the texts of one character. |
| `Wildcmp.StarMatchesAll` | tests/doctest.h:4152-4155 | `*` matches every text. |
| `Wildcmp.GlobInTwoParts` | tests/doctest.h:4138-4172 | A pattern in two parts matches exactly the texts that can be cut in two accordingly. |
| `Wildcmp.Match` | tests/doctest.h:4138-4172 | The loop returns true if and only if the recursive glob relation holds, for every text and pattern, with and without case folding, and terminates. |
| `Subcases.RunTakesOne` | tests/doctest.h:4232-4280 | The path noted for the next run leads to the leaf after the one taken: what remains is the chosen leaf followed by what remains from that path. |
| `Subcases.LeavesExact` | tests/doctest.h:4232-4280 | The list of leaves contains exactly the root-to-leaf paths. |
| `Subcases.LeavesDiffer` | tests/doctest.h:4232-4280 | No leaf is listed twice. |
| `Subcases.ClearAfter` | tests/doctest.h:4251-4280 | Recording the leaf of a run never hides a subcase that a later run has still to enter. |
| `Subcases.EffectInTwoParts` | tests/doctest.h:4232-4280 | Running sibling subcases is running the first one and then the others, in the state the first one leaves. |
| `Subcases.ReentryRunsAgain` | tests/doctest.h:4246-4250 | A subcase of the taken path that control reaches again is entered and reported again; entering and leaving it changes nothing else but, when no path is left, the record of this one. |
| `Subcases.OthersWait` | tests/doctest.h:4251-4260 | Any other subcase after the leaf is passed over, and noted for the next run only when none is noted at this depth and its path is not recorded. |
| `Subcases.Context.Enter` | tests/doctest.h:4232-4262 | The constructor's decision and its update of the stacks. |
| `Subcases.Context.Leave` | tests/doctest.h:4268-4280 | The destructor's update. |
| `Subcases.Context.Execute` | tests/doctest.h:4232-4280 | Running a forest of subcases takes the chosen path to one leaf and notes the path of the next run. |
| `Subcases.Context.RunTest` | tests/doctest.h:7016-7035 | One pass of the test function enters exactly one root-to-leaf path. |
| `Subcases.Context.RunTestCase` | tests/doctest.h:7008-7059 | The runs are the leaves, each once, in depth-first order (one empty run when there are none), the loop ends, and the reports name the same paths. |
| `MultiLane.LoadIsBetween` | tests/doctest.h:3471-3477 | For every interleaving of non-negative additions the value a scan adds up lies between the true totals at its start and end. |
| `MultiLane.MultiLaneAtomic.FetchAdd` | tests/doctest.h:3461-3463 | The total grows by the argument; what comes back is the old value of the caller's lane, and it is the old total if and only if the other lanes add up to zero. |
| `MultiLane.OtherLanesAreNotSeen` | tests/doctest.h:3457-3463 | After one increment from another lane a thread is given 0. |
| `MultiLane.MultiLaneAtomic.Load` | tests/doctest.h:3471-3477 | The result is the total at the start plus the additions that hit a lane before it was read; so it is exact without concurrent additions and between the two totals with non-negative ones. |
| `MultiLane.MultiLaneAtomic.Store` | tests/doctest.h:3484-3490 | Afterwards the total is the stored value. |
| `SmallString.String.Allocate` | tests/doctest.h:3603-3616 | Up to 23 characters stay inside the object, more go to a new block; tag, terminator and capacity are set. |
| `SmallString.String.Terminated` | tests/doctest.h:642-648 | What c_str points at begins with the characters and a terminator. |
| `SmallString.String.SetSize` | tests/doctest.h:3620-3623 | Shrinks in place to a prefix; a heap string stays on the heap below 24 characters. |
| `SmallString.String.Copy` | tests/doctest.h:3625-3631 | The copy has the same characters and shares no memory. |
| `SmallString.String.Assign` | tests/doctest.h:3656-3665 | Also for self-assignment, the value becomes that of the other string. |
| `SmallString.String.AppendOnStack` | tests/doctest.h:3671-3675 | Appending within the object, up to the byte that is tag and terminator at once. |
| `SmallString.String.AppendInPlace` | tests/doctest.h:3691-3694 | Appending within the block. |
| `SmallString.String.AppendToNewBlock` | tests/doctest.h:3676-3711 | Appending in a new block, from the object or from a smaller block. |
| `SmallString.String.Append` | tests/doctest.h:3667-3715 | In all cases the value becomes the old value followed by the other string's. |
| `SmallString.String.Take` | tests/doctest.h:3717-3721 | Moving hands the characters and the block over and leaves the empty string. |
| `SmallString.String.MoveAssign` | tests/doctest.h:3723-3732 | The same for assignment, self-assignment included. |
| `SmallString.Sub` | tests/doctest.h:3759 | A substring has `count` characters, or those up to the end when there are fewer, and character i is character `pos + i`. |
| `SmallString.String.SubstrMove` | tests/doctest.h:3758-3764 | The rvalue substring has `count` characters from `pos` on, or those up to the end when there are fewer; the source is empty afterwards. |
| `SmallString.String.SubstrCopy` | tests/doctest.h:3766-3769 | The same characters in a new string, the source unchanged. |
| `SmallString.String.Find` | tests/doctest.h:3771-3778 | The first position of a character from `pos` on, or none. |
| `SmallString.Perform` | tests/doctest.h:3603-3769 | One operation on a pool of strings is the operation on their values; the strings it does not name keep theirs, and no two share memory. |
| `SmallString.Chain` | tests/doctest.h:3603-3769 | Any chain of construct, append, copy, move and substring operations, from empty strings on, gives the values the same chain gives on plain sequences. |
| `Xml.CheckUtf8` | tests/doctest.h:5255-5283 | The encoder's check of a multi-byte character, with its loop. |
| `Xml.AsciiIsPrinted` | tests/doctest.h:5206-5235 | Each ASCII character: white space and printable characters as they are, the literal entities for `<` and `&`, for a quotation mark exactly in attributes, for `>` behind two closing brackets from the fourth byte on, and the rest as a backslash, `x` and two upper-case hex digits of its value. |
| `Xml.NonAsciiIsPrinted` | tests/doctest.h:5237-5287 | Each other byte: a character that is well formed by the table of the Unicode standard (surrogates included), or the overlong U+0800, is printed as it is and read past; any other byte is escaped alone. |
| `Xml.AcceptedValues` | tests/doctest.h:5271-5281 | Accepted are exactly the continuation patterns whose value needs that many bytes, up to U+10FFFF, and the four-byte form of U+0800. |
| `Xml.OverlongIsPrinted` | tests/doctest.h:5271-5281 | The bytes F0 80 A0 80 are printed as they are. |
| `Xml.EncodeTo` | tests/doctest.h:5202-5289 | The loop with its skipping index prints the concatenation of the pieces. |
| `Xml.UnescapeUndoesEncode` | tests/doctest.h:5202-5289 | Replacing the four entities restores a text if and only if nothing in it needs a hex escape. |
| `Xml.EncodeIsText` | tests/doctest.h:5202-5289 | The output has no raw `<`, and every `&` begins one of the four entities (section 2.4 of XML 1.0). |
| `Xml.NoQuotes` | tests/doctest.h:5220-5225 | An escaped attribute value contains no quotation mark. |
| `Xml.CdataEndIff` | tests/doctest.h:5212-5218 | The output contains `]]>` if and only if the text begins with it. |
| `Xml.CdataEndLeaks` | tests/doctest.h:5212-5218 | The text `]]>` is printed as it is. |
| `XmlWriter.XmlWriter.StartElement` | tests/doctest.h:5339-5347 | Prints the end of an unfinished start tag and the new one. |
| `XmlWriter.XmlWriter.EndElement` | tests/doctest.h:5355-5368 | Prints `/>` for an unfinished start tag and otherwise the end tag of the innermost element. |
| `XmlWriter.XmlWriter.WriteAttribute` | tests/doctest.h:5370-5374 | Prints the escaped attribute, nothing for an empty name or value. |
| `XmlWriter.XmlWriter.WriteText` | tests/doctest.h:5387-5397 | Prints the escaped text behind the finished start tag; empty text changes nothing. |
| `XmlWriter.Quotes` | tests/doctest.h:5220-5225 | A quotation mark is printed as it is in a text and as an entity in an attribute. |
| `XmlWriter.XmlWriter.Close` | tests/doctest.h:5334-5337 | The destructor prints the ends of all open elements, innermost first. |
| `XmlWriter.XmlWriter.Use` | tests/doctest.h:5334-5397 | Every legal sequence of calls prints, apart from white space between tags, exactly the markup the calls mean; its tags are balanced and properly nested and its texts and values contain no markup. |
| `XmlWriter.ReadingUndoesWriting` | tests/doctest.h:5334-5397 | Reading that markup, with the entities replaced, gives back what the calls said, when nothing needs a hex escape. |
| `CommaList.Tokenize` | tests/doctest.h:6535-6569 | The loop over the characters computes the recursive tokenizer. |
| `CommaList.CharactersAreKept` | tests/doctest.h:6545-6566 | A backslash in front of anything but a comma or a backslash is kept, as it is at the end of the list; in front of these two it only takes away their meaning; a comma ends the word. |
| `CommaList.TokenizeUndoesJoin` | tests/doctest.h:6535-6569 | Tokenizing the escaped, comma-joined form of any list gives its non-empty words, whatever characters they contain. |
| `CommaList.RoundTripIff` | tests/doctest.h:6535-6569 | The list itself comes back if and only if it has no empty word. |
| `CommaList.RewritingIsStable` | tests/doctest.h:6535-6569 | Writing out what any string was read as gives a string that reads the same. |
| `Framing.FramedInTwoParts` | src/protocol/linesession.cc:8-20 | Framing a stream is framing its first part, then the kept bytes with the second part, for every separator. |
| `Framing.RestHasNoSeparator` | src/protocol/linesession.cc:12-20 | What stays in the buffer contains no separator. |
| `Framing.LineHasNoSeparator` | src/protocol/linesession.cc:12-20 | Nor does any intended line. |
| `Framing.FramedConserves` | src/protocol/linesession.cc:8-20 | Intended lines, separators and rest are the buffer. |
| `Framing.FramedFromConserves` | src/protocol/linesession.cc:8-20 | So they are for the loop as written. |
| `Framing.AsWrittenAgrees` | src/protocol/linesession.cc:11-20 | One call of the loop as written gives the intended lines and rest if and only if the complete lines have non-decreasing lengths. |
| `Framing.IntendedCuts` | src/protocol/linesession.cc:11-20 | With a bar as separator, the example stream of three lines, the middle one empty, is cut into these three. |
| `Framing.AsWrittenMerges` | src/protocol/linesession.cc:11-20 | The loop as written delivers only two lines for it, the second beginning with a separator. |
| `Framing.AsWrittenHoldsBack` | src/protocol/linesession.cc:11-20 | When the same stream comes in two reads, the empty line is kept in the buffer with its separator until the second. |
| `HeldBack.HeldBackIff` | src/protocol/linesession.cc:11-20 | For a separator that cannot overlap itself, the loop as written leaves a complete line in its buffer if and only if a walk over the lengths of the complete lines ends on one shorter than the last delivered. |
| `HeldBack.CrLfHasNoBorder` | src/protocol/linesession.hh:8 | The default separator cannot overlap itself. |
| `HeldBack.LengthsDoNotDecide` | src/protocol/linesession.cc:11-20 | For one that can, the lengths do not decide it. |
| `LineSession.Session.Iteration` | src/protocol/linesession.cc:5-23 | One call: new buffer, requests handed to the protocol and the response are those of the loop as written. |
| `LineSession.RequestsConserve` | src/protocol/linesession.cc:15 | With the separator included, requests and rest are the buffer; without it, the requests are the lines. |
| `LineSession.ResponsesInOrder` | src/protocol/linesession.cc:12-20 | The response is what `process` gives for each request in order, each once and after all the requests before it. |
| `LineSession.ChunkingDoesNotMatter` | src/protocol/linesession.cc:5-23 | For any way of cutting a stream into reads, lines and final buffer of the intended framing are those of the whole stream. |
| `LineSession.SameStreamSameResponses` | src/protocol/linesession.cc:5-23 | And so are the responses, for a protocol with any memory of its requests. |
| `LineSession.WrittenRunConserves` | src/protocol/linesession.cc:8-20 | Over any run of the loop as written no byte is lost, duplicated or reordered. |
| `LineSession.WrittenRunAgrees` | src/protocol/linesession.cc:8-20 | A run of the loop as written agrees with the intended one, call by call, if and only if the lines of each intended call have non-decreasing lengths. |
| `Dispatcher.StepKeepsInv` | src/server/server.cc:5-25 | Every step of main thread, workers and kernel keeps the sharding and the bookkeeping of clients. |
| `Dispatcher.AcceptIsFresh` | src/server/server.cc:10-15 | A descriptor that is not open belongs to no live session and to no pending event, also when an earlier event of the batch closed it. |
| `Dispatcher.RegisteredClientsOwnSessions` | src/server/server.cc:5-25 | In every reachable state the descriptors with a session are the open ones but for the server's own, and between batches the registered clients; inside a batch every pending client event is about a session that existed when the batch was polled, and an accepted descriptor overwrites none. |
| `Dispatcher.IterationsDoNotOverlap` | src/thread/thread_manager.cc:15-28 | In every reachable state sessions and notices are only in shard `fd % n`, no two threads are inside an iteration of one session, and no session is removed during its iteration. |
| `Coverage.DelayReadsMore` | src/server/tcp/tcpconnection.cc:8-35 | Waiting between notice and read never makes less be read in total. |
| `Coverage.EagerBacklog` | src/server/tcp/tcpconnection.cc:8-35 | What immediate reads leave behind is the largest excess of any suffix of the notices over one buffer each. |
| `Coverage.AllReadIff` | src/server/tcp/tcpconnection.cc:8-35 | All announced bytes are read under every delay if and only if no suffix of the notices announces more than one buffer each on average. |
| `Coverage.SmallNoticesAreSustainable` | src/server/poller/poller.linux.cpp:68-74 | In particular when each edge notice announces at most one buffer. |
| `Coverage.StepKeepsFollowing` | src/thread/threadmulti.cc:9-27 | Every step keeps the reads of each session behind its notices: apart from reads for stale notices of a reused descriptor, read j comes when at least what notice j announced has arrived, and the bytes read are those of such a schedule. |
| `Coverage.HandledMeansRead` | src/thread/threadmulti.cc:9-27 | In every reachable state a session has read at least what immediate reads for its handled notices would have read, and all they announced when they are sustainable; a session that read at once has read all if and only if they are. |
| `Coverage.DrainedMeansRead` | src/thread/threadmulti.cc:9-27 | So a session with sustainable notices and none under way has no unread byte. |
| `LargeNotice.BytesStayBehind` | src/server/tcp/tcpconnection.cc:10-12 | A run in which a client's only notice announces more than one buffer: the rest stays unread when all queues are drained. |
| `Replies.StepKeepsAnswered` | src/protocol/session.cc:3-10 | Every step keeps this: a session has sent its protocol's replies to its reads, in order, except to one that a worker is replying to. |
| `Replies.RunKeepsAnswered` | src/protocol/session.cc:3-10 | The same over whole runs. |
| `Replies.SentAt` | src/protocol/session.cc:3-10 | The reply to a read is what the protocol sends given the reads up to it. |
| `Replies.LineRepliesAddUp` | src/protocol/linesession.cc:5-23 | The replies of a line session, one for each read, add up to the responses to all its lines. |
| `Replies.LinesAreChunkFree` | src/protocol/linesession.cc:5-23 | With the intended framing the reply stream depends on the byte stream alone. |
| `Replies.WrittenReplies` | src/protocol/linesession.cc:5-23 | As written it is that reply stream when no read completes a line shorter than the one before. |
| `Replies.WrittenIsNotChunkFree` | src/protocol/linesession.cc:5-23 | In general it is not: one stream, two ways of reading it, two reply streams. |
| `Replies.Serve` | src/protocol/linesession.cc:5-23 | A line session object that is given these reads sends these replies. |
| `Refinement.NoticeInFourSteps` | src/thread/threadsingle.cc:13-18 | The single-threaded handling of a notice is notify, take, read and reply in a row. |
| `Refinement.SingleRunIsMultiRun` | src/thread/threadsingle.cc:3-18 | Every run of the single-threaded server is a run of the multi-threaded one with one worker. |
| `Refinement.ErasedRunMirrors` | src/thread/threadmulti.cc:9-58 | For every run with any number of workers, disconnects included, the single-threaded server can run on the same batches, accepts and arrivals; it then has the same clients, with the same bytes and notices. |
| `Refinement.MultiEqualsSingle` | src/thread/threadmulti.cc:9-58 | For any number of workers and any interleaving, a drained session with sustainable notices has consumed the bytes that the single-threaded server consumes on the same batches, both have sent all their replies, and these are the same bytes if they depend on the byte stream alone. |
| `Refinement.LineSessionsAgree` | src/thread/threadmulti.cc:9-58 | So line sessions with the intended framing send the same responses. |
| `Refinement.WrittenLineSessionsAgree` | src/thread/threadmulti.cc:9-58 | Line sessions as written do when no read completes a line shorter than the one before. |
| `ShardQueues.QueueIsFifo` | src/thread/threadmulti.cc:15-20 | The popped notices followed by the queue are the old queue followed by the new notices, so position p is handled by the (p+1)-th non-empty pass. |
| `ShardQueues.SystemQueues` | src/thread/threadmulti.cc:9-58 | In any run of the system what a shard's worker takes, and what its queue is left with, is what such passes pop and leave. |
| `ShardQueues.SystemIsFifo` | src/thread/threadmulti.cc:9-58 | So it takes, in order, the old queue and then the new notices. |
| `ShardQueues.TakenIsRead` | src/thread/threadmulti.cc:22-25 | A taken notice is read when its session is there and dropped otherwise. |
| `Server.RecvCall` | src/server/tcp/tcpconnection.cc:8-35 | One read takes at most 16384 bytes, as many as there are up to that, from the front of the unread bytes, and is empty only when there are none. |
| `Server.ThreadMulti.WorkerPass` | src/thread/threadmulti.cc:11-25 | A worker's pass under its lock is take, read and reply, and sends the protocol's reply; an empty queue changes nothing and a notice for an unknown descriptor is dropped. |
| `Server.ThreadMulti.AddSession` | src/thread/threadmulti.cc:41-45 | Adds the session under its descriptor. |
| `Server.ThreadMulti.RemoveSession` | src/thread/threadmulti.cc:47-51 | Removes it, leaving the queue as it is. |
| `Server.ThreadMulti.DataAvailable` | src/thread/threadmulti.cc:53-58 | Appends the notice. |
| `Server.ThreadSingle.DataAvailable` | src/thread/threadsingle.cc:13-18 | Runs the iteration at once. |
| `Server.ThreadManager.constructor` | src/thread/thread_manager.cc:5-13 | n distinct threads without sessions. |
| `Server.ThreadManager.AddSession` | src/thread/thread_manager.cc:15-18 | Only the shard `fd % n` changes. |
| `Server.ThreadManager.RemoveSession` | src/thread/thread_manager.cc:20-23 | Likewise. |
| `Server.ThreadManager.DataAvailable` | src/thread/thread_manager.cc:25-28 | Likewise. |
| `Server.EventKinds` | src/server/poller/poller.linux.cpp:51-63 | A client is reported disconnected if and only if one of its entries is a hang-up, and readable if and only if one has input and no hang-up; there is one new-client event for each entry of the server. |
| `Server.EventsKeepOrder` | src/server/poller/poller.linux.cpp:51-63 | The events are about entries of the list in the order of the list. |
| `Server.Poller.Wait` | src/server/poller/poller.linux.cpp:37-66 | All of this for the returned events; the epoll set loses exactly the clients with a hang-up. |
| `Server.Poller.AddClient` | src/server/poller/poller.linux.cpp:68-75 | Registers the client. |
| `Server.MainLoop.Handle` | src/server/server.cc:9-22 | One event performs its steps of the step system. |
| `Server.MainLoop.Poll` | src/server/poller/poller.linux.cpp:37-66 | A wait of the main loop is the poll step of the system. |
| `Server.BatchIsLegal` | src/server/server.cc:5-25 | Given what the kernel promises of `accept`, the steps of a batch are legal one after the other. |
| `Server.MainLoop.Iterate` | src/server/server.cc:5-25 | One iteration performs a legal run of the system: the poll step and the steps of each event. |

## Left out

- Sockets, `accept`, `bind`, name lookup, TLS connections and the TLS server: the kernel is a byte stream per descriptor, an interest set, and an allocator that never returns an open descriptor. A read returns all unread bytes up to the buffer size.
- The `send` loops, which resend from the start of the buffer after a partial write: a send is one full append.
- The Windows and BSD pollers, thread start-up and destruction, stop requests and timing: a timed-out wait is an empty worker pass.
- Data that arrives together with a hang-up: the poller reports only the disconnect, which ends what the model owes to that session.
- Exceptions, logging, signals, demos and the load test's process control and statistics.
- `Server.MainLoop.Iterate`: runs a batch without worker steps in between; the interleaved case is covered by the step system. What the kernel keeps (open descriptors, bytes arrived at a notice) is written into ghost fields and the sessions' histories.
- `Server.ThreadManager.constructor`: the threads of the class are `ThreadMulti`; `ThreadSingle` is modelled beside it, without the polymorphic pointer. Zero threads are excluded, as `fd % 0` would be undefined.
- `Refinement.MultiEqualsSingle`: sessions are values in the shards' maps rather than heap objects, and a protocol is a function of the reads so far (an empty read may be given an empty reply, as in the base session).
- `HeldBack.HeldBackIff`: only separators that cannot overlap themselves; for the others `HeldBack.LengthsDoNotDecide` shows that line lengths are not enough.
- `LineSession.Session.Iteration`: excludes the empty separator, for which the loop in the source does not end.
- `Getopt.Scanner.Next`: `POSIXLY_CORRECT` is taken as unset, error messages and `opterr` are left out, the long-index pointer is taken as given, and option codes are characters without the sign extension of bytes above 127.
- `GetoptRender.ParseReadsBack`: writes no single-dash long options (`ya_getopt_long_only`), for which a cluster and a name can be confused; the refinement `GetoptRun.RunRefinesParse` includes them.
- `Subcases.Context.RunTestCase`: no subcase filters, no exceptions, `abort_after` 0, no subcases declared under loops or conditions (one re-entry is in `Subcases.ReentryRunsAgain`), and recorded paths in place of their hashes (taken as injective).
- `MultiLane.MultiLaneAtomic.Load`: integers do not overflow, and memory orders weaker than sequential consistency are not modelled.
- `SmallString.String.Append`: appending a string to itself is excluded (overlapping `memcpy`), and sizes do not wrap at 32 bits.
- `SmallString.Chain`: `delete[]` is not modelled, only which string owns which block; the union is the tag byte, the characters and the view, where writing the view overwrites the characters. `strlen`, `compare`, `rfind` and stream input are left out.
- `XmlWriter.XmlWriter.Use`: output is a list of markup tokens; names are not checked, and the order of calls the source leaves to its callers is a precondition. Boolean attributes, the declaration and `ScopedElement` are left out.
- `Wildcmp.Match`: `matchesAny` and the filter lists around it are left out; folding is ASCII.
- The rest of doctest: macros, stringification, reporters' layout, colours, signal handlers and timers.
