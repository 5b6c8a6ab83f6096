// The element structure of the XML writer: what it prints, as markup tokens, is balanced.
module XmlWriter {
  import opened Common
  import opened Xml

  // One piece of output: `<name`, an attribute, `>`, `/>`, `</name>`, character data, or white
  // space between them.
  datatype Token =
    | TagOpen(name: string)
    | Attribute(key: string, value: seq<Byte>)
    | TagEnd
    | SelfClose
    | EndTag(name: string)
    | Text(data: seq<Byte>)
    | Space(white: string)

  // A reader of the tokens: the open elements, and whether a start tag is still unfinished. None
  // when a token is out of place or an end tag does not match.
  datatype Reading = Bad | Open(elements: seq<string>, inTag: bool)

  function ReadToken(r: Reading, t: Token): Reading {
    if r.Bad? then Bad
    else
      match t
      case TagOpen(name) => if r.inTag then Bad else Open(r.elements + [name], true)
      case Attribute(_, _) => if r.inTag then r else Bad
      case TagEnd => if r.inTag then Open(r.elements, false) else Bad
      case SelfClose => if r.inTag && r.elements != [] then Open(r.elements[..|r.elements| - 1], false) else Bad
      case EndTag(name) =>
        if !r.inTag && r.elements != [] && r.elements[|r.elements| - 1] == name
        then Open(r.elements[..|r.elements| - 1], false) else Bad
      case Text(_) => if r.inTag then Bad else r
      case Space(_) => if r.inTag then Bad else r
  }

  function ReadAll(tokens: seq<Token>): Reading {
    if tokens == [] then Open([], false)
    else ReadToken(ReadAll(tokens[..|tokens| - 1]), tokens[|tokens| - 1])
  }

  lemma {:induction false} ReadAppend(tokens: seq<Token>, t: Token)
    ensures ReadAll(tokens + [t]) == ReadToken(ReadAll(tokens), t)
  {
    assert (tokens + [t])[..|tokens|] == tokens;
  }

  // Escaped character data and attribute values never contain markup.
  ghost predicate CleanText(tokens: seq<Token>) {
    forall t <- tokens :: CleanToken(t)
  }

  ghost predicate CleanToken(t: Token) {
    && (t.Text? ==> IsText(t.data))
    && (t.Attribute? ==> IsText(t.value) && HasNoQuote(t.value))
  }

  datatype Call = StartElement(name: string) | EndElement | WriteAttribute(key: string, value: seq<Byte>)
                | WriteText(text: seq<Byte>, indented: bool)

  // What the calls demand of their order, which the writer does not check: an element to end,
  // and attributes only while the start tag is unfinished. Text keeps a tag unfinished only when
  // it is empty.
  ghost predicate LegalCalls(calls: seq<Call>, depth: nat, inTag: bool)
    decreases |calls|
  {
    calls == [] ||
    match calls[0]
    case StartElement(_) => LegalCalls(calls[1..], depth + 1, true)
    case EndElement => depth > 0 && LegalCalls(calls[1..], depth - 1, false)
    case WriteAttribute(_, _) => inTag && LegalCalls(calls[1..], depth, true)
    case WriteText(text, _) => LegalCalls(calls[1..], depth, inTag && text == [])
  }

  // ---- The markup that calls mean ----

  // Without the white space between tags.
  function Visible(tokens: seq<Token>): seq<Token> {
    if tokens == [] then []
    else
      var last := tokens[|tokens| - 1];
      Visible(tokens[..|tokens| - 1]) + (if last.Space? then [] else [last])
  }

  lemma {:induction false} VisibleAppend(tokens: seq<Token>, t: Token)
    ensures Visible(tokens + [t]) == Visible(tokens) + (if t.Space? then [] else [t])
  {
    assert (tokens + [t])[..|tokens|] == tokens;
  }

  function Finish(inTag: bool): seq<Token> {
    if inTag then [TagEnd] else []
  }

  // An element without contents is closed by its start tag.
  function Ending(name: string, inTag: bool): Token {
    if inTag then SelfClose else EndTag(name)
  }

  // The end tags of what is still open, innermost first.
  function Closings(open: seq<string>, inTag: bool): seq<Token> {
    if open == [] then []
    else [Ending(open[|open| - 1], inTag)] + Closings(open[..|open| - 1], false)
  }

  function AttributeMarkup(key: string, value: seq<Byte>): seq<Token> {
    if key != "" && value != [] then [Attribute(key, Encode(value, 0, true))] else []
  }

  function TextMarkup(text: seq<Byte>, inTag: bool): seq<Token> {
    if text == [] then [] else Finish(inTag) + [Text(Encode(text, 0, false))]
  }

  function CallMarkup(call: Call, open: seq<string>, inTag: bool): seq<Token>
    requires call.EndElement? ==> open != []
  {
    match call
    case StartElement(name) => Finish(inTag) + [TagOpen(name)]
    case EndElement => [Ending(open[|open| - 1], inTag)]
    case WriteAttribute(key, value) => AttributeMarkup(key, value)
    case WriteText(text, _) => TextMarkup(text, inTag)
  }

  function OpenAfter(call: Call, open: seq<string>): seq<string>
    requires call.EndElement? ==> open != []
  {
    if call.StartElement? then open + [call.name] else if call.EndElement? then open[..|open| - 1] else open
  }

  function InTagAfter(call: Call, inTag: bool): bool {
    if call.StartElement? then true
    else if call.EndElement? then false
    else if call.WriteAttribute? then inTag
    else inTag && call.text == []
  }

  // Start tags, escaped attributes and texts, end tags, and at the end what is still open.
  function Markup(calls: seq<Call>, open: seq<string>, inTag: bool): seq<Token>
    requires LegalCalls(calls, |open|, inTag)
    decreases |calls|
  {
    if calls == [] then Closings(open, inTag)
    else CallMarkup(calls[0], open, inTag) + Markup(calls[1..], OpenAfter(calls[0], open), InTagAfter(calls[0], inTag))
  }

  // ---- What a reader gets out of it ----

  // A token as a call again: entities replaced, tags' own punctuation dropped.
  function ReadOne(t: Token): seq<Call> {
    match t
    case TagOpen(name) => [StartElement(name)]
    case Attribute(key, value) => [WriteAttribute(key, Unescape(value))]
    case Text(data) => [WriteText(Unescape(data), false)]
    case SelfClose => [EndElement]
    case EndTag(_) => [EndElement]
    case _ => []
  }

  function ReadBack(tokens: seq<Token>): seq<Call> {
    if tokens == [] then [] else ReadOne(tokens[0]) + ReadBack(tokens[1..])
  }

  // What the calls say: empty attributes and texts say nothing, and open elements end.
  function Said(calls: seq<Call>, depth: nat): seq<Call>
    requires LegalCalls(calls, depth, true) || LegalCalls(calls, depth, false)
    decreases |calls|
  {
    if calls == [] then seq(depth, i => EndElement)
    else
      match calls[0]
      case StartElement(_) => [calls[0]] + Said(calls[1..], depth + 1)
      case EndElement => [EndElement] + Said(calls[1..], depth - 1)
      case WriteAttribute(key, value) => (if key != "" && value != [] then [calls[0]] else []) + Said(calls[1..], depth)
      case WriteText(text, _) => (if text == [] then [] else [WriteText(text, false)]) + Said(calls[1..], depth)
  }

  // No text or attribute needs a hex escape.
  ghost predicate AllClean(calls: seq<Call>) {
    forall call <- calls ::
      && (call.WriteText? ==> Clean(call.text, 0))
      && (call.WriteAttribute? ==> Clean(call.value, 0))
  }

  lemma {:induction false} ReadBackAppend(a: seq<Token>, b: seq<Token>)
    ensures ReadBack(a + b) == ReadBack(a) + ReadBack(b)
  {
    hide ReadOne;
    if a == [] {
      assert a + b == b;
    } else {
      ReadBackAppend(a[1..], b);
      assert (a + b)[1..] == a[1..] + b;
      assert ReadOne(a[0]) + (ReadBack(a[1..]) + ReadBack(b)) == ReadOne(a[0]) + ReadBack(a[1..]) + ReadBack(b);
    }
  }

  lemma {:induction false} ReadBackOne(t: Token)
    ensures ReadBack([t]) == ReadOne(t)
  {
    assert [t][1..] == [];
  }

  lemma {:induction false} ReadClosings(open: seq<string>, inTag: bool)
    ensures ReadBack(Closings(open, inTag)) == seq(|open|, i => EndElement)
  {
    if open != [] {
      var more := Closings(open[..|open| - 1], false);
      ReadClosings(open[..|open| - 1], false);
      assert ([Ending(open[|open| - 1], inTag)] + more)[1..] == more;
    }
  }

  lemma {:induction false} ReadText(text: seq<Byte>, inTag: bool)
    requires Clean(text, 0)
    ensures ReadBack(TextMarkup(text, inTag)) == if text == [] then [] else [WriteText(text, false)]
  {
    if text != [] {
      hide Unescape, Encode, Clean;
      UnescapeUndoesEncode(text, 0, false);
      assert text[0..] == text;
      ReadBackAppend(Finish(inTag), [Text(Encode(text, 0, false))]);
      ReadBackOne(Text(Encode(text, 0, false)));
      if inTag {
        ReadBackOne(TagEnd);
      }
    }
  }

  // A quotation mark is printed as it is in a text and as an entity in an attribute.
  lemma {:induction false} Quotes(key: string, inTag: bool)
    requires key != ""
    ensures TextMarkup([34], inTag) == (if inTag then [TagEnd] else []) + [Text([34])]
    ensures AttributeMarkup(key, [34]) == [Attribute(key, [38, 113, 117, 111, 116, 59])]
  {
    AsciiIsPrinted([34], 0, false);
    AsciiIsPrinted([34], 0, true);
    assert forall attribute :: Encode([34], 1, attribute) == [];
    assert forall piece: seq<Byte> :: piece + [] == piece;
  }

  lemma {:induction false} ReadAttribute(key: string, value: seq<Byte>)
    requires Clean(value, 0)
    ensures ReadBack(AttributeMarkup(key, value)) == if key != "" && value != [] then [WriteAttribute(key, value)] else []
  {
    if key != "" && value != [] {
      hide Unescape, Encode, Clean;
      UnescapeUndoesEncode(value, 0, true);
      assert value[0..] == value;
      ReadBackOne(Attribute(key, Encode(value, 0, true)));
    }
  }

  lemma {:induction false} ReadStart(name: string, inTag: bool)
    ensures ReadBack(Finish(inTag) + [TagOpen(name)]) == [StartElement(name)]
  {
    ReadBackAppend(Finish(inTag), [TagOpen(name)]);
    ReadBackOne(TagOpen(name));
    if inTag {
      ReadBackOne(TagEnd);
    }
  }

  // Reading the markup of clean calls gives back what they say.
  lemma {:induction false} ReadingUndoesWriting(calls: seq<Call>, open: seq<string>, inTag: bool)
    requires LegalCalls(calls, |open|, inTag) && AllClean(calls)
    ensures ReadBack(Markup(calls, open, inTag)) == Said(calls, |open|)
    decreases |calls|
  {
    hide ReadBack, Clean, Finish, AttributeMarkup, TextMarkup, Closings, Ending;
    if calls == [] {
      ReadClosings(open, inTag);
    } else {
      assert calls[0] in calls;
      var later, after := OpenAfter(calls[0], open), InTagAfter(calls[0], inTag);
      ReadingUndoesWriting(calls[1..], later, after);
      ReadBackAppend(CallMarkup(calls[0], open, inTag), Markup(calls[1..], later, after));
      match calls[0]
      case StartElement(name) => ReadStart(name, inTag);
      case EndElement => ReadBackOne(Ending(open[|open| - 1], inTag)); ReadEnding(open[|open| - 1], inTag);
      case WriteAttribute(key, value) => ReadAttribute(key, value);
      case WriteText(text, _) => ReadText(text, inTag);
    }
  }

  lemma ReadEnding(name: string, inTag: bool)
    ensures ReadOne(Ending(name, inTag)) == [EndElement]
  {
  }

  // ---- The writer ----

  class XmlWriter {
    var tagIsOpen: bool
    var needsNewline: bool
    var tags: seq<string>
    var indent: string
    var os: seq<Token>

    constructor ()
      ensures Valid() && tags == [] && !tagIsOpen && os == []
    {
      tagIsOpen, needsNewline, tags, indent, os := false, false, [], "", [];
    }

    // The reader of the output agrees with the writer's own fields.
    ghost predicate Valid()
      reads this
    {
      && ReadAll(os) == Open(tags, tagIsOpen)
      && CleanText(os)
      && |indent| == 2 * |tags|
      && (tagIsOpen ==> tags != [] && !needsNewline)
    }

    method Emit(t: Token)
      requires CleanText(os) && CleanToken(t)
      modifies this`os
      ensures ReadAll(os) == ReadToken(old(ReadAll(os)), t) && CleanText(os)
      ensures os == old(os) + [t]
      ensures Visible(os) == old(Visible(os)) + (if t.Space? then [] else [t])
    {
      ReadAppend(os, t);
      VisibleAppend(os, t);
      os := os + [t];
    }

    method EnsureTagClosed()
      requires Valid()
      modifies this`os, this`tagIsOpen
      ensures Valid() && !tagIsOpen
      ensures Visible(os) == old(Visible(os)) + Finish(old(tagIsOpen))
      ensures !old(tagIsOpen) ==> os == old(os)
    {
      hide ReadAll, CleanText, Visible;
      if tagIsOpen {
        Emit(TagEnd);
        Emit(Space("\n"));
        tagIsOpen := false;
      }
    }

    method NewlineIfNecessary()
      requires Valid()
      modifies this`os, this`needsNewline
      ensures Valid() && !needsNewline && Visible(os) == old(Visible(os))
    {
      hide ReadAll, CleanText, Visible;
      if needsNewline {
        Emit(Space("\n"));
        needsNewline := false;
      }
    }

    method StartElement(name: string)
      requires Valid()
      modifies this
      ensures Valid() && tags == old(tags) + [name] && tagIsOpen
      ensures Visible(os) == old(Visible(os)) + (Finish(old(tagIsOpen)) + [TagOpen(name)])
    {
      hide ReadAll, CleanText, Visible;
      EnsureTagClosed();
      NewlineIfNecessary();
      Emit(Space(indent));
      Emit(TagOpen(name));
      tags := tags + [name];
      indent := indent + "  ";
      tagIsOpen := true;
    }

    method EndElement()
      requires Valid() && tags != []
      modifies this
      ensures Valid() && tags == old(tags)[..|old(tags)| - 1] && !tagIsOpen
      ensures Visible(os) == old(Visible(os)) + [Ending(old(tags)[|old(tags)| - 1], old(tagIsOpen))]
    {
      hide ReadAll, CleanText, Visible;
      NewlineIfNecessary();
      indent := indent[..|indent| - 2];
      if tagIsOpen {
        Emit(SelfClose);
        tagIsOpen := false;
      } else {
        Emit(Space(indent));
        Emit(EndTag(tags[|tags| - 1]));
      }
      Emit(Space("\n"));
      tags := tags[..|tags| - 1];
    }

    method WriteAttribute(key: string, value: seq<Byte>)
      requires Valid() && tagIsOpen
      modifies this`os
      ensures Valid()
      ensures os == old(os) + AttributeMarkup(key, value)
      ensures Visible(os) == old(Visible(os)) + AttributeMarkup(key, value)
    {
      hide ReadAll, CleanText, Visible, IsText, Encode, HasNoQuote;
      if key != "" && value != [] {
        var encoded := EncodeTo(value, true);
        EncodeIsText(value, 0, true);
        NoQuotes(value, 0);
        Emit(Attribute(key, encoded));
      }
    }

    method WriteText(text: seq<Byte>, indented: bool)
      requires Valid()
      modifies this
      ensures Valid() && tags == old(tags)
      ensures tagIsOpen == (old(tagIsOpen) && text == [])
      ensures text == [] ==> os == old(os)
      ensures text != [] ==> os != [] && os[|os| - 1] == Text(Encode(text, 0, false))
      ensures Visible(os) == old(Visible(os)) + TextMarkup(text, old(tagIsOpen))
    {
      hide ReadAll, CleanText, Visible, IsText, Encode;
      if text != [] {
        var tagWasOpen := tagIsOpen;
        EnsureTagClosed();
        if tagWasOpen && indented {
          Emit(Space(indent));
        }
        var encoded := EncodeTo(text, false);
        EncodeIsText(text, 0, false);
        Emit(Text(encoded));
        needsNewline := true;
      }
    }

    // The destructor.
    method Close()
      requires Valid()
      modifies this
      ensures Valid() && tags == []
      ensures Visible(os) == old(Visible(os)) + Closings(old(tags), old(tagIsOpen))
    {
      hide ReadAll, CleanText, Visible, Ending;
      while tags != []
        invariant Valid()
        invariant Visible(os) + Closings(tags, tagIsOpen) == old(Visible(os)) + Closings(old(tags), old(tagIsOpen))
        decreases |tags|
      {
        ghost var now, last := Visible(os), Ending(tags[|tags| - 1], tagIsOpen);
        ghost var more := Closings(tags[..|tags| - 1], false);
        assert now + ([last] + more) == now + [last] + more;
        EndElement();
      }
    }

    // Any legal use of a fresh writer prints exactly the markup that the calls mean; it is
    // balanced and properly nested, and no text or attribute value in it contains markup.
    method Use(calls: seq<Call>)
      requires Valid() && tags == [] && !tagIsOpen && os == [] && LegalCalls(calls, 0, false)
      modifies this
      ensures Visible(os) == Markup(calls, [], false)
      ensures ReadAll(os) == Open([], false) && CleanText(os)
    {
      hide ReadAll, CleanText, Visible, LegalCalls, Markup, CallMarkup, OpenAfter, InTagAfter, Closings, Valid;
      NothingVisible();
      for i := 0 to |calls|
        invariant Valid() && LegalCalls(calls[i..], |tags|, tagIsOpen)
        invariant Visible(os) + Markup(calls[i..], tags, tagIsOpen) == Markup(calls, [], false)
      {
        MarkupStep(calls, i, tags, tagIsOpen);
        ghost var now, markup := Visible(os), CallMarkup(calls[i], tags, tagIsOpen);
        Do(calls[i]);
        ghost var more := Markup(calls[i + 1..], tags, tagIsOpen);
        assert now + (markup + more) == now + markup + more;
      }
      NothingLeft(tags, tagIsOpen);
      assert calls[|calls|..] == [];
      Close();
      Balanced();
    }

    method Do(call: Call)
      requires Valid() && (call.EndElement? ==> tags != []) && (call.WriteAttribute? ==> tagIsOpen)
      modifies this
      ensures Valid() && tags == OpenAfter(call, old(tags)) && tagIsOpen == InTagAfter(call, old(tagIsOpen))
      ensures Visible(os) == old(Visible(os)) + CallMarkup(call, old(tags), old(tagIsOpen))
    {
      hide ReadAll, CleanText, Visible, Ending, Finish, AttributeMarkup, TextMarkup;
      match call {
        case StartElement(name) => StartElement(name);
        case EndElement => EndElement();
        case WriteAttribute(key, value) => WriteAttribute(key, value);
        case WriteText(text, indented) => WriteText(text, indented);
      }
    }

    lemma Balanced()
      requires Valid() && tags == []
      ensures ReadAll(os) == Open([], false) && CleanText(os)
    {
    }
  }

  lemma {:induction false} MarkupStep(calls: seq<Call>, i: nat, open: seq<string>, inTag: bool)
    requires i < |calls| && LegalCalls(calls[i..], |open|, inTag)
    ensures (calls[i].EndElement? ==> open != []) && (calls[i].WriteAttribute? ==> inTag)
    ensures var later, after := OpenAfter(calls[i], open), InTagAfter(calls[i], inTag);
            && LegalCalls(calls[i + 1..], |later|, after)
            && Markup(calls[i..], open, inTag) == CallMarkup(calls[i], open, inTag) + Markup(calls[i + 1..], later, after)
  {
    hide CallMarkup;
    assert calls[i..][0] == calls[i] && calls[i..][1..] == calls[i + 1..];
  }

  lemma NothingLeft(open: seq<string>, inTag: bool)
    ensures LegalCalls([], |open|, inTag) && Markup([], open, inTag) == Closings(open, inTag)
  {
  }

  lemma NothingVisible()
    ensures Visible([]) == []
  {
  }
}
