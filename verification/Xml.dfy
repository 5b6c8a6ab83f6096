// The XML printer of the test runner: escaping of character data on bytes, and the writer's
// element structure. Character data and markup are as in section 2.4 of XML 1.0.
module Xml {
  import opened Common

  const LT: seq<Byte> := [38, 108, 116, 59]              // &lt;
  const GT: seq<Byte> := [38, 103, 116, 59]              // &gt;
  const AMP: seq<Byte> := [38, 97, 109, 112, 59]         // &amp;
  const QUOT: seq<Byte> := [38, 113, 117, 111, 116, 59]  // &quot;

  function TrailingBytes(c: Byte): nat
    requires 0xC0 <= c < 0xF8
  {
    if c < 0xE0 then 2 else if c < 0xF0 then 3 else 4
  }

  function HeaderValue(c: Byte): nat
    requires 0xC0 <= c < 0xF8
  {
    if c < 0xE0 then c % 0x20 else if c < 0xF0 then c % 0x10 else c % 0x08
  }

  function HexDigit(d: int): Byte
    requires 0 <= d < 16
  {
    if d < 10 then 48 + d else 55 + d
  }

  function HexEscape(c: Byte): seq<Byte> {
    [92, 120, HexDigit(c / 16), HexDigit(c % 16)]
  }

  // The value of the bytes behind a lead byte, six bits each.
  function Value(s: seq<Byte>, header: nat): nat
    decreases |s|
  {
    if s == [] then header else Value(s[..|s| - 1], header) * 64 + s[|s| - 1] % 64
  }

  predicate Continuations(s: seq<Byte>) {
    forall i :: 0 <= i < |s| ==> 0x80 <= s[i] < 0xC0
  }

  // What the encoder accepts as a multi-byte character at `idx`.
  predicate ValidUtf8(s: seq<Byte>, idx: nat)
    requires idx < |s|
  {
    var c := s[idx];
    && 0xC0 <= c < 0xF8
    && var n := TrailingBytes(c);
    && idx + n - 1 < |s|
    && var tail := s[idx + 1..idx + n];
    && var value := Value(tail, HeaderValue(c));
    && Continuations(tail)
    && value >= 0x80
    && !(value < 0x800 && n > 2)
    && !(0x800 < value < 0x10000 && n > 3)
    && value < 0x110000
  }

  predicate IsHexEscaped(s: seq<Byte>, idx: nat)
    requires idx < |s|
  {
    var c := s[idx];
    c < 0x09 || 0x0D < c < 0x20 || c == 0x7F || (c > 0x7F && !ValidUtf8(s, idx))
  }

  // The ']]' in front of a '>' counts from the fourth byte on.
  predicate ClosesCdata(s: seq<Byte>, idx: nat)
    requires idx < |s|
  {
    idx > 2 && s[idx - 1] == 93 && s[idx - 2] == 93
  }

  // The number of bytes read at `idx`, and what is written for them.
  function Width(s: seq<Byte>, idx: nat): (n: nat)
    requires idx < |s|
    ensures 1 <= n <= |s| - idx
  {
    if s[idx] > 0x7F && ValidUtf8(s, idx) then TrailingBytes(s[idx]) else 1
  }

  function Piece(s: seq<Byte>, idx: nat, attribute: bool): (piece: seq<Byte>)
    requires idx < |s|
    ensures piece != []
  {
    var c := s[idx];
    if c == 60 then LT
    else if c == 38 then AMP
    else if c == 62 then (if ClosesCdata(s, idx) then GT else [c])
    else if c == 34 then (if attribute then QUOT else [c])
    else if IsHexEscaped(s, idx) then HexEscape(c)
    else s[idx..idx + Width(s, idx)]
  }

  function Encode(s: seq<Byte>, idx: nat, attribute: bool): seq<Byte>
    requires idx <= |s|
    decreases |s| - idx
  {
    if idx == |s| then [] else Piece(s, idx, attribute) + Encode(s, idx + Width(s, idx), attribute)
  }

  lemma {:induction false} OneMoreByte(s: seq<Byte>, c: Byte, header: nat)
    ensures Continuations(s + [c]) <==> Continuations(s) && 0x80 <= c < 0xC0
    ensures Value(s + [c], header) == Value(s, header) * 64 + c % 64
  {
    var t := s + [c];
    assert t[|s|] == c && t[..|s|] == s;
    assert forall i :: 0 <= i < |s| ==> s[i] == t[i];
  }

  // The bytes behind a lead byte.
  method ReadTrail(s: seq<Byte>, idx: nat, encBytes: nat, header: nat) returns (valid: bool, value: int)
    requires 1 <= encBytes && idx + encBytes <= |s|
    ensures valid == Continuations(s[idx + 1..idx + encBytes])
    ensures value == Value(s[idx + 1..idx + encBytes], header)
  {
    hide Continuations, Value;
    NoTrail(header);
    assert s[idx + 1..idx + 1] == [];
    valid, value := true, header;
    for n := 1 to encBytes
      invariant valid == Continuations(s[idx + 1..idx + n])
      invariant value == Value(s[idx + 1..idx + n], header)
    {
      var nc := s[idx + n];
      OneMoreByte(s[idx + 1..idx + n], nc, header);
      assert s[idx + 1..idx + n + 1] == s[idx + 1..idx + n] + [nc];
      valid := valid && 0x80 <= nc < 0xC0;
      value := value * 64 + nc % 64;
    }
  }

  lemma NoTrail(header: nat)
    ensures Continuations([]) && Value([], header) == header
  {
  }

  method CheckUtf8(s: seq<Byte>, idx: nat) returns (sane: bool)
    requires idx < |s| && 0xC0 <= s[idx] < 0xF8
    ensures sane == ValidUtf8(s, idx)
  {
    hide Continuations, Value, HeaderValue;
    var c := s[idx];
    var encBytes := TrailingBytes(c);
    if idx + encBytes - 1 >= |s| {
      return false;
    }
    var valid, value := ReadTrail(s, idx, encBytes, HeaderValue(c));
    return valid && value >= 0x80 && !(value < 0x800 && encBytes > 2)
           && !(0x800 < value && value < 0x10000 && encBytes > 3) && value < 0x110000;
  }

  // The branches for one position.
  method EncodeChar(s: seq<Byte>, idx: nat, attribute: bool) returns (piece: seq<Byte>, width: nat)
    requires idx < |s|
    ensures piece == Piece(s, idx, attribute) && width == Width(s, idx)
  {
    hide ValidUtf8, TrailingBytes;
    var c := s[idx];
    piece, width := [c], 1;
    if c == 60 {
      piece := LT;
    } else if c == 38 {
      piece := AMP;
    } else if c == 62 {
      if idx > 2 && s[idx - 1] == 93 && s[idx - 2] == 93 {
        piece := GT;
      }
    } else if c == 34 {
      if attribute {
        piece := QUOT;
      }
    } else if c < 0x09 || 0x0D < c < 0x20 || c == 0x7F {
      piece := HexEscape(c);
    } else if c >= 0x7F {
      var sane := false;
      if 0xC0 <= c < 0xF8 {
        sane := CheckUtf8(s, idx);
      }
      LeadByte(s, idx);
      if sane {
        width := TrailingBytes(c);
        assert width == Width(s, idx);
        piece := s[idx..idx + width];
      } else {
        piece := HexEscape(c);
      }
    }
  }

  method EncodeTo(s: seq<Byte>, attribute: bool) returns (os: seq<Byte>)
    ensures os == Encode(s, 0, attribute)
  {
    hide Piece, Width;
    os := [];
    var idx := 0;
    while idx < |s|
      invariant 0 <= idx <= |s|
      invariant os + Encode(s, idx, attribute) == Encode(s, 0, attribute)
    {
      var piece, width := EncodeChar(s, idx, attribute);
      os := os + piece;
      idx := idx + width;
    }
  }

  lemma LeadByte(s: seq<Byte>, idx: nat)
    requires idx < |s|
    ensures ValidUtf8(s, idx) ==> 0xC0 <= s[idx] < 0xF8
  {
  }

  // ---- What is printed, byte by byte ----

  // The value of an upper-case hex digit.
  function DigitValue(d: Byte): int {
    if 48 <= d <= 57 then d - 48 else if 65 <= d <= 70 then d - 55 else -1
  }

  ghost predicate IsEscapeOf(piece: seq<Byte>, c: Byte) {
    && |piece| == 4 && piece[0] == 92 && piece[1] == 120
    && 0 <= DigitValue(piece[2]) < 16 && 0 <= DigitValue(piece[3]) < 16
    && DigitValue(piece[2]) * 16 + DigitValue(piece[3]) == c
  }

  lemma HexEscapeReadsBack(c: Byte)
    ensures IsEscapeOf(HexEscape(c), c)
  {
  }

  // An ASCII character: white space and printable characters as they are, '<' and '&' as
  // entities, '"' in attributes, '>' behind "]]" from the fourth byte on, and the rest as \xHH.
  lemma {:induction false} AsciiIsPrinted(s: seq<Byte>, idx: nat, attribute: bool)
    requires idx < |s| && s[idx] < 128
    ensures var c, more := s[idx], Encode(s, idx + 1, attribute);
            exists piece: seq<Byte> ::
              && Encode(s, idx, attribute) == piece + more
              && (c == 60 ==> piece == [38, 108, 116, 59])
              && (c == 38 ==> piece == [38, 97, 109, 112, 59])
              && (c == 34 ==> piece == if attribute then [38, 113, 117, 111, 116, 59] else [34])
              && (c == 62 ==> piece == if idx > 2 && s[idx - 1] == 93 && s[idx - 2] == 93 then [38, 103, 116, 59] else [62])
              && ((c == 9 || 10 <= c <= 13 || 0x20 <= c <= 0x7E) && c != 60 && c != 38 && c != 34 && c != 62 ==> piece == [c])
              && (c < 9 || 13 < c < 0x20 || c == 0x7F ==> IsEscapeOf(piece, c))
  {
    hide IsEscapeOf, ValidUtf8, HexEscape;
    var c, piece := s[idx], Piece(s, idx, attribute);
    HexEscapeReadsBack(c);
    assert Width(s, idx) == 1;
    assert s[idx..idx + 1] == [c];
    assert Encode(s, idx, attribute) == piece + Encode(s, idx + 1, attribute);
  }

  // How many bytes a well-formed character at `idx` has, 0 when there is none: the table of the
  // Unicode standard, with surrogates.
  function WellFormed(s: seq<Byte>, idx: nat): nat
    requires idx < |s|
  {
    var c, t := s[idx], |s| - idx - 1;
    if 0xC2 <= c <= 0xDF && t >= 1 && 0x80 <= s[idx + 1] <= 0xBF then 2
    else if 0xE0 <= c <= 0xEF && t >= 2 && (if c == 0xE0 then 0xA0 else 0x80) <= s[idx + 1] <= 0xBF
         && 0x80 <= s[idx + 2] <= 0xBF then 3
    else if 0xF0 <= c <= 0xF4 && t >= 3
         && (if c == 0xF0 then 0x90 else 0x80) <= s[idx + 1] <= (if c == 0xF4 then 0x8F else 0xBF)
         && 0x80 <= s[idx + 2] <= 0xBF && 0x80 <= s[idx + 3] <= 0xBF then 4
    else 0
  }

  // The four-byte form of U+0800.
  predicate Overlong(s: seq<Byte>, idx: nat)
    requires idx < |s|
  {
    idx + 4 <= |s| && s[idx..idx + 4] == [0xF0, 0x80, 0xA0, 0x80]
  }

  lemma {:induction false} TailValue(t: seq<Byte>, header: nat)
    ensures |t| == 1 ==> Value(t, header) == header * 64 + t[0] % 64
    ensures |t| == 2 ==> Value(t, header) == (header * 64 + t[0] % 64) * 64 + t[1] % 64
    ensures |t| == 3 ==> Value(t, header) == ((header * 64 + t[0] % 64) * 64 + t[1] % 64) * 64 + t[2] % 64
    decreases |t|
  {
    if t != [] {
      assert t == t[..|t| - 1] + [t[|t| - 1]];
      TailValue(t[..|t| - 1], header);
      OneMoreByte(t[..|t| - 1], t[|t| - 1], header);
      if |t| == 1 {
        NoTrail(header);
      }
    }
  }

  lemma {:induction false} TwoBytes(s: seq<Byte>, idx: nat)
    requires idx < |s| && 0xC0 <= s[idx] < 0xE0
    ensures ValidUtf8(s, idx) <==> WellFormed(s, idx) == 2
    ensures WellFormed(s, idx) in {0, 2} && !Overlong(s, idx)
  {
    if idx + 1 < |s| {
      TailValue(s[idx + 1..idx + 2], s[idx] % 0x20);
    }
  }

  lemma {:induction false} ThreeBytes(s: seq<Byte>, idx: nat)
    requires idx < |s| && 0xE0 <= s[idx] < 0xF0
    ensures ValidUtf8(s, idx) <==> WellFormed(s, idx) == 3
    ensures WellFormed(s, idx) in {0, 3} && !Overlong(s, idx)
  {
    if idx + 2 < |s| {
      TailValue(s[idx + 1..idx + 3], s[idx] % 0x10);
    }
  }

  lemma FourByteRange(c: Byte, t0: Byte, t1: Byte, t2: Byte)
    requires 0xF0 <= c < 0xF8 && 0x80 <= t0 < 0xC0 && 0x80 <= t1 < 0xC0 && 0x80 <= t2 < 0xC0
    ensures var value := ((c % 8 * 64 + t0 % 64) * 64 + t1 % 64) * 64 + t2 % 64;
            && (0x10000 <= value < 0x110000 <==>
                  c <= 0xF4 && (c == 0xF0 ==> t0 >= 0x90) && (c == 0xF4 ==> t0 <= 0x8F))
            && (value == 0x800 <==> c == 0xF0 && t0 == 0x80 && t1 == 0xA0 && t2 == 0x80)
  {
  }

  lemma {:induction false} FourBytes(s: seq<Byte>, idx: nat)
    requires idx < |s| && 0xF0 <= s[idx] < 0xF8
    ensures ValidUtf8(s, idx) <==> WellFormed(s, idx) == 4 || Overlong(s, idx)
    ensures WellFormed(s, idx) in {0, 4}
  {
    if idx + 3 < |s| {
      hide ValidUtf8, Value;
      var t := s[idx + 1..idx + 4];
      AcceptedValues(s, idx);
      TailValue(t, s[idx] % 8);
      assert t[0] == s[idx + 1] && t[1] == s[idx + 2] && t[2] == s[idx + 3];
      assert s[idx..idx + 4] == [s[idx]] + t;
      if Continuations(t) {
        FourByteRange(s[idx], t[0], t[1], t[2]);
      }
    }
  }

  // Any other byte: a well-formed character, or the overlong U+0800, is printed as it is and read
  // past; a byte that starts neither is escaped alone.
  lemma {:induction false} NonAsciiIsPrinted(s: seq<Byte>, idx: nat, attribute: bool)
    requires idx < |s| && s[idx] >= 128
    ensures var n := if Overlong(s, idx) then 4 else WellFormed(s, idx);
            if n > 0 then
              idx + n <= |s| && Encode(s, idx, attribute) == s[idx..idx + n] + Encode(s, idx + n, attribute)
            else
              exists piece: seq<Byte> ::
                IsEscapeOf(piece, s[idx]) && Encode(s, idx, attribute) == piece + Encode(s, idx + 1, attribute)
  {
    hide IsEscapeOf, ValidUtf8, HexEscape, WellFormed, Overlong;
    var c := s[idx];
    if 0xC0 <= c < 0xE0 {
      TwoBytes(s, idx);
    } else if 0xE0 <= c < 0xF0 {
      ThreeBytes(s, idx);
    } else if 0xF0 <= c < 0xF8 {
      FourBytes(s, idx);
    } else {
      LeadByte(s, idx);
      NoLeadByte(s, idx);
    }
    HexEscapeReadsBack(c);
    assert Encode(s, idx, attribute) == Piece(s, idx, attribute) + Encode(s, idx + Width(s, idx), attribute);
  }

  lemma NoLeadByte(s: seq<Byte>, idx: nat)
    requires idx < |s| && !(0xC0 <= s[idx] < 0xF8)
    ensures WellFormed(s, idx) == 0 && !Overlong(s, idx)
  {
  }

  // ---- Reading the text back ----

  predicate StartsWith(s: seq<Byte>, prefix: seq<Byte>) {
    prefix <= s
  }

  // Replaces the four entities and keeps every other byte.
  function Unescape(out: seq<Byte>): seq<Byte>
    decreases |out|
  {
    if out == [] then []
    else if StartsWith(out, LT) then [60] + Unescape(out[4..])
    else if StartsWith(out, GT) then [62] + Unescape(out[4..])
    else if StartsWith(out, AMP) then [38] + Unescape(out[5..])
    else if StartsWith(out, QUOT) then [34] + Unescape(out[6..])
    else [out[0]] + Unescape(out[1..])
  }

  // No byte read from `idx` on is hex escaped.
  predicate Clean(s: seq<Byte>, idx: nat)
    requires idx <= |s|
    decreases |s| - idx
  {
    idx == |s| || (!IsHexEscaped(s, idx) && Clean(s, idx + Width(s, idx)))
  }

  lemma {:induction false} UnescapeByte(c: Byte, rest: seq<Byte>)
    requires c != 38
    ensures Unescape([c] + rest) == [c] + Unescape(rest)
  {
    var out := [c] + rest;
    assert out[0] == c && out[1..] == rest;
  }

  lemma {:induction false} UnescapePlain(plain: seq<Byte>, rest: seq<Byte>)
    requires forall i :: 0 <= i < |plain| ==> plain[i] != 38
    ensures Unescape(plain + rest) == plain + Unescape(rest)
    decreases |plain|
  {
    hide Unescape;
    if plain == [] {
      assert plain + rest == rest;
    } else {
      UnescapeByte(plain[0], plain[1..] + rest);
      UnescapePlain(plain[1..], rest);
      assert plain + rest == [plain[0]] + (plain[1..] + rest);
    }
  }

  lemma {:induction false} UnescapeEntity(c: Byte, entity: seq<Byte>, rest: seq<Byte>)
    requires (c == 60 && entity == LT) || (c == 62 && entity == GT) || (c == 38 && entity == AMP) || (c == 34 && entity == QUOT)
    ensures Unescape(entity + rest) == [c] + Unescape(rest)
  {
    var out := entity + rest;
    assert out[|entity|..] == rest;
    assert out[1] == entity[1];
  }

  lemma {:induction false} MultiByteIsPlain(s: seq<Byte>, idx: nat)
    requires idx < |s| && s[idx] > 0x7F && ValidUtf8(s, idx)
    ensures forall k :: idx <= k < idx + Width(s, idx) ==> s[k] >= 0x80
  {
    var tail := s[idx + 1..idx + Width(s, idx)];
    forall k | idx < k < idx + Width(s, idx)
      ensures s[k] >= 0x80
    {
      assert s[k] == tail[k - idx - 1];
    }
  }

  ghost predicate EntityFor(c: Byte, entity: seq<Byte>) {
    (c == 60 && entity == LT) || (c == 62 && entity == GT) || (c == 38 && entity == AMP) || (c == 34 && entity == QUOT)
  }

  // What is written is an entity, or the bytes themselves without '<' and '&'.
  lemma {:induction false} PieceKinds(s: seq<Byte>, idx: nat, attribute: bool)
    requires idx < |s|
    ensures var piece, n := Piece(s, idx, attribute), Width(s, idx);
            || (EntityFor(s[idx], piece) && n == 1)
            || (IsHexEscaped(s, idx) && piece == HexEscape(s[idx]) && n == 1)
            || (!IsHexEscaped(s, idx) && piece == s[idx..idx + n] && forall k :: idx <= k < idx + n ==> s[k] != 60 && s[k] != 38)
  {
    if s[idx] > 0x7F && ValidUtf8(s, idx) {
      MultiByteIsPlain(s, idx);
    }
  }

  // Unescaping restores a text exactly when nothing in it needs a hex escape.
  lemma {:induction false} UnescapeUndoesEncode(s: seq<Byte>, idx: nat, attribute: bool)
    requires idx <= |s|
    ensures Unescape(Encode(s, idx, attribute)) == s[idx..] <==> Clean(s, idx)
    ensures |Unescape(Encode(s, idx, attribute))| >= |s| - idx
    ensures |Unescape(Encode(s, idx, attribute))| == |s| - idx ==> Clean(s, idx)
    decreases |s| - idx
  {
    hide Unescape, Piece, Width, IsHexEscaped, HexEscape;
    if idx < |s| {
      var next := idx + Width(s, idx);
      var piece, rest := Piece(s, idx, attribute), Encode(s, next, attribute);
      UnescapeUndoesEncode(s, next, attribute);
      PieceKinds(s, idx, attribute);
      assert s[idx..] == s[idx..next] + s[next..];
      if EntityFor(s[idx], piece) {
        UnescapeEntity(s[idx], piece, rest);
        NotEscaped(s, idx);
      } else if IsHexEscaped(s, idx) {
        HexIsLonger(s[idx]);
        UnescapePlain(piece, rest);
      } else {
        UnescapePlain(piece, rest);
      }
    } else {
      assert Encode(s, idx, attribute) == [] && s[idx..] == [];
      UnescapeNothing();
    }
  }

  lemma NotEscaped(s: seq<Byte>, idx: nat)
    requires idx < |s| && s[idx] in {34, 38, 60, 62}
    ensures !IsHexEscaped(s, idx)
  {
  }

  lemma HexIsLonger(c: Byte)
    ensures |HexEscape(c)| == 4 && forall i :: 0 <= i < 4 ==> HexEscape(c)[i] != 38
  {
  }

  lemma UnescapeNothing()
    ensures Unescape([]) == []
  {
  }

  // ---- What the output never contains ----

  // No raw '<', and every '&' begins one of the four entities.
  ghost predicate IsText(out: seq<Byte>)
    decreases |out|
  {
    if out == [] then true
    else if out[0] == 38 then
      exists entity | entity in {LT, GT, AMP, QUOT} :: entity <= out && IsText(out[|entity|..])
    else out[0] != 60 && IsText(out[1..])
  }

  lemma {:induction false} TextByte(c: Byte, rest: seq<Byte>)
    requires c != 38 && c != 60 && IsText(rest)
    ensures IsText([c] + rest)
  {
    assert ([c] + rest)[1..] == rest;
  }

  lemma {:induction false} TextPlain(plain: seq<Byte>, rest: seq<Byte>)
    requires forall i :: 0 <= i < |plain| ==> plain[i] != 38 && plain[i] != 60
    requires IsText(rest)
    ensures IsText(plain + rest)
    decreases |plain|
  {
    hide IsText;
    if plain == [] {
      assert plain + rest == rest;
    } else {
      TextPlain(plain[1..], rest);
      TextByte(plain[0], plain[1..] + rest);
      assert plain + rest == [plain[0]] + (plain[1..] + rest);
    }
  }

  lemma {:induction false} EncodeIsText(s: seq<Byte>, idx: nat, attribute: bool)
    requires idx <= |s|
    ensures IsText(Encode(s, idx, attribute))
    decreases |s| - idx
  {
    hide Piece, Width, IsHexEscaped;
    if idx < |s| {
      var piece, rest := Piece(s, idx, attribute), Encode(s, idx + Width(s, idx), attribute);
      EncodeIsText(s, idx + Width(s, idx), attribute);
      PieceKinds(s, idx, attribute);
      if EntityFor(s[idx], piece) {
        TextEntity(piece, rest);
      } else {
        TextPlain(piece, rest);
      }
    }
  }

  lemma {:induction false} TextEntity(entity: seq<Byte>, rest: seq<Byte>)
    requires entity in {LT, GT, AMP, QUOT} && IsText(rest)
    ensures IsText(entity + rest)
  {
    var out := entity + rest;
    assert entity <= out && out[|entity|..] == rest && out[0] == 38;
  }

  const CDATA_END: seq<Byte> := [93, 93, 62]  // ]]>

  ghost predicate Contains(out: seq<Byte>, pattern: seq<Byte>)
    decreases |out|
  {
    pattern <= out || (out != [] && Contains(out[1..], pattern))
  }

  lemma {:induction false} SkipPiece(piece: seq<Byte>, rest: seq<Byte>)
    requires forall i :: 0 <= i < |piece| ==> piece[i] != 93
    ensures Contains(piece + rest, CDATA_END) <==> Contains(rest, CDATA_END)
    decreases |piece|
  {
    if piece == [] {
      assert piece + rest == rest;
    } else {
      SkipPiece(piece[1..], rest);
      var out := piece + rest;
      assert out[0] == piece[0] && out[1..] == piece[1..] + rest;
    }
  }

  lemma {:induction false} BracketPiece(s: seq<Byte>, idx: nat, attribute: bool)
    requires idx < |s|
    ensures s[idx] == 93 ==> Piece(s, idx, attribute) == [93] && Width(s, idx) == 1
    ensures s[idx] != 93 ==> forall i :: 0 <= i < |Piece(s, idx, attribute)| ==> Piece(s, idx, attribute)[i] != 93
    ensures Piece(s, idx, attribute)[0] == 62 <==> s[idx] == 62 && !ClosesCdata(s, idx)
  {
    if s[idx] == 93 {
      assert s[idx..idx + 1] == [93];
    } else {
      PieceKinds(s, idx, attribute);
      if s[idx] > 0x7F && ValidUtf8(s, idx) {
        MultiByteIsPlain(s, idx);
      }
    }
  }

  // The output contains "]]>", which character data must not, exactly when the text begins
  // with it: anywhere else the '>' is escaped.
  lemma {:induction false} CdataEndIff(s: seq<Byte>, idx: nat, attribute: bool)
    requires idx <= |s|
    ensures Contains(Encode(s, idx, attribute), CDATA_END) <==> idx == 0 && CDATA_END <= s
    decreases |s| - idx
  {
    hide Piece, Width;
    if idx < |s| {
      var piece, next := Piece(s, idx, attribute), idx + Width(s, idx);
      var rest := Encode(s, next, attribute);
      CdataEndIff(s, next, attribute);
      BracketPiece(s, idx, attribute);
      if s[idx] != 93 {
        SkipPiece(piece, rest);
      } else {
        var out := [93] + rest;
        assert out[1..] == rest;
        HeadOf(s, idx + 1, attribute);
        if idx + 2 <= |s| {
          HeadOf(s, idx + 2, attribute);
        }
        assert CDATA_END <= out <==> |rest| >= 2 && rest[0] == 93 && rest[1] == 62;
      }
    }
  }

  lemma {:induction false} CdataEndLeaks()
    ensures Encode(CDATA_END, 0, false) == CDATA_END && Contains(Encode(CDATA_END, 0, false), CDATA_END)
  {
    var s := CDATA_END;
    assert Piece(s, 0, false) == [93] && Piece(s, 1, false) == [93] && Piece(s, 2, false) == [62];
    assert Encode(s, 3, false) == [];
    assert Encode(s, 2, false) == [62] && Encode(s, 1, false) == [93, 62];
  }

  lemma {:induction false} HeadOf(s: seq<Byte>, idx: nat, attribute: bool)
    requires idx <= |s|
    ensures var out := Encode(s, idx, attribute);
            && (out == [] <==> idx == |s|)
            && (idx < |s| && s[idx] == 93 ==> out == [93] + Encode(s, idx + 1, attribute))
            && (out != [] && out[0] == 93 ==> s[idx] == 93)
            && (out != [] && out[0] == 62 <==> idx < |s| && s[idx] == 62 && !ClosesCdata(s, idx))
  {
    hide Piece, Width;
    if idx < |s| {
      BracketPiece(s, idx, attribute);
    }
  }

  // ---- Which multi-byte characters pass ----

  // The accepted values are those whose shortest encoding has that many bytes, up to the last
  // code point, with one exception: U+0800 is also accepted in the overlong four-byte form.
  lemma {:induction false} AcceptedValues(s: seq<Byte>, idx: nat)
    requires idx < |s| && 0xC0 <= s[idx] < 0xF8 && idx + TrailingBytes(s[idx]) - 1 < |s|
    ensures var n := TrailingBytes(s[idx]);
            var value := Value(s[idx + 1..idx + n], HeaderValue(s[idx]));
            ValidUtf8(s, idx) <==>
            && Continuations(s[idx + 1..idx + n])
            && (match n
                case 2 => 0x80 <= value < 0x800
                case 3 => 0x800 <= value < 0x10000
                case _ => 0x10000 <= value < 0x110000 || value == 0x800)
  {
    var n, header := TrailingBytes(s[idx]), HeaderValue(s[idx]);
    ValueBound(s[idx + 1..idx + n], header);
    assert n == 2 ==> header <= 0x1F;
    assert n == 3 ==> header <= 0x0F;
  }

  lemma {:induction false} OverlongValue()
    ensures Value([0x80, 0xA0, 0x80], 0) == 0x800 && Continuations([0x80, 0xA0, 0x80])
  {
    hide Value, Continuations;
    var a: seq<Byte> := [];
    var b := a + [0x80];
    var c := b + [0xA0];
    NoTrail(0);
    OneMoreByte(a, 0x80, 0);
    OneMoreByte(b, 0xA0, 0);
    OneMoreByte(c, 0x80, 0);
    assert c + [0x80] == [0x80, 0xA0, 0x80];
  }

  // U+0800 in four bytes, where three would do, is printed as it is.
  lemma {:induction false} OverlongIsPrinted()
    ensures var s: seq<Byte> := [0xF0, 0x80, 0xA0, 0x80];
            ValidUtf8(s, 0) && Encode(s, 0, false) == s
  {
    hide Value, Continuations;
    var s: seq<Byte> := [0xF0, 0x80, 0xA0, 0x80];
    OverlongValue();
    assert s[1..4] == [0x80, 0xA0, 0x80] && HeaderValue(0xF0) == 0;
    assert ValidUtf8(s, 0);
    PrintedWhole(s);
  }

  lemma PrintedWhole(s: seq<Byte>)
    requires |s| == 4 && s[0] == 0xF0 && ValidUtf8(s, 0)
    ensures Encode(s, 0, false) == s
  {
    hide ValidUtf8;
    assert Width(s, 0) == 4 && s[0..4] == s && Encode(s, 4, false) == [];
  }

  lemma {:induction false} ValueBound(s: seq<Byte>, header: nat)
    ensures |s| == 1 ==> Value(s, header) < 64 * (header + 1)
    ensures |s| == 2 ==> Value(s, header) < 4096 * (header + 1)
  {
    if |s| == 1 {
      assert Value(s[..0], header) == header;
    } else if |s| == 2 {
      ValueBound(s[..1], header);
    }
  }

  ghost predicate HasNoQuote(out: seq<Byte>) {
    forall i :: 0 <= i < |out| ==> out[i] != 34
  }

  // An escaped attribute value never ends its own quotation.
  lemma {:induction false} NoQuotes(s: seq<Byte>, idx: nat)
    requires idx <= |s|
    ensures HasNoQuote(Encode(s, idx, true))
    decreases |s| - idx
  {
    if idx < |s| {
      NoQuotes(s, idx + Width(s, idx));
      if s[idx] > 0x7F && ValidUtf8(s, idx) {
        MultiByteIsPlain(s, idx);
      }
    }
  }
}
