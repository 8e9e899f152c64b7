/** String literals of native/selection-host/src/core/envelope.cpp: ParseHex4, ParseString and EscapeJsonString. */
module JsonStrings {
  import opened Basics
  import opened Utf8
  import opened JsonGrammar

  const LOWER_U := 0x75

  // ----- What a literal stands for -----

  function PairScalar(high: int, low: int): int {
    0x10000 + (high - 0xD800) * 1024 + (low - 0xDC00)
  }

  /** The code point of a piece, unless it is a raw octet of a multi-octet character. */
  function PieceScalar(p: Piece): (v: Scalar)
    requires IsPiece(Native, p) && (p.Raw? ==> p.c < 0x80)
  {
    match p
    case Raw(c) => c
    case Short(c) => ShortValue(c).value
    case Hex(digits) => HexValue(digits).value
    case Pair(high, low) => PairScalar(HexValue(high).value, HexValue(low).value)
  }

  function PieceValue(p: Piece): Text
    requires IsPiece(Native, p)
  {
    if p.Raw? then [p.c] else EncodeScalar(PieceScalar(p))
  }

  function PiecesValue(ps: seq<Piece>): Text
    requires ArePieces(Native, ps)
  {
    if ps == [] then [] else PieceValue(ps[0]) + PiecesValue(ps[1..])
  }

  // ----- The reader -----

  function Hex4(s: Text, i: nat): (r: Option<int>)
    ensures r.Some? ==> i + 4 <= |s| && 0 <= r.value <= 0xFFFF
  {
    if i + 4 > |s| then None else HexValue(s[i..i + 4])
  }

  function HexPieceAt(s: Text, j: nat): Option<Piece> {
    var first := Hex4(s, j);
    if first.None? then None
    else if IsHighSurrogate(first.value) then
      if j + 10 > |s| || s[j + 4] != BACKSLASH || s[j + 5] != LOWER_U then None
      else
        var second := Hex4(s, j + 6);
        if second.None? || !IsLowSurrogate(second.value) then None
        else Some(Pair(s[j..j + 4], s[j + 6..j + 10]))
    else if IsLowSurrogate(first.value) then None
    else Some(Hex(s[j..j + 4]))
  }

  /** One turn of the reader's loop, closing quote aside. */
  function PieceAt(s: Text, i: nat): Option<Piece>
    requires i < |s|
  {
    var c := s[i];
    if c < 0x20 || c == QUOTE then None
    else if c != BACKSLASH then Some(Raw(c))
    else if i + 1 >= |s| then None
    else if s[i + 1] == LOWER_U then HexPieceAt(s, i + 2)
    else if ShortValue(s[i + 1]).Some? then Some(Short(s[i + 1]))
    else None
  }

  /** The pieces from position i up to the closing quote. */
  function StringAt(s: Text, i: nat): Option<seq<Piece>>
    decreases |s| - i
  {
    if i >= |s| then None
    else if s[i] == QUOTE then Some([])
    else
      var p := PieceAt(s, i);
      if p.None? then None
      else
        var rest := StringAt(s, i + |PieceText(p.value)|);
        if rest.None? then None else Some([p.value] + rest.value)
  }

  /** The pieces of the literal whose opening quote stands at i. */
  function LiteralAt(s: Text, i: nat): Option<seq<Piece>> {
    if i < |s| && s[i] == QUOTE then StringAt(s, i + 1) else None
  }

  lemma PieceSound(s: Text, i: nat)
    requires i < |s| && PieceAt(s, i).Some?
    ensures var p := PieceAt(s, i).value; IsPiece(Native, p) && At(s, i, PieceText(p))
  {
    hide HexValue;
    var p := PieceAt(s, i).value;
    if p.Hex? {
      assert s[i..i + 6] == [s[i], s[i + 1]] + s[i + 2..i + 6];
    } else if p.Pair? {
      assert s[i..i + 6] == [s[i], s[i + 1]] + s[i + 2..i + 6];
      assert s[i + 6..i + 12] == [s[i + 6], s[i + 7]] + s[i + 8..i + 12];
      assert s[i..i + 12] == s[i..i + 6] + s[i + 6..i + 12];
    }
  }

  lemma PieceComplete(s: Text, i: nat, p: Piece)
    requires IsPiece(Native, p) && At(s, i, PieceText(p))
    ensures i < |s| && s[i] != QUOTE && PieceAt(s, i) == Some(p)
  {
    hide HexValue;
    var t := PieceText(p);
    assert forall k {:trigger t[k]} | 0 <= k < |t| :: s[i + k] == t[k];
    assert s[i] == t[0];
    if p.Short? {
      assert s[i + 1] == t[1];
    } else if p.Hex? {
      assert s[i + 1] == t[1];
      assert s[i + 2..i + 6] == t[2..6] == p.digits;
    } else if p.Pair? {
      assert s[i + 1] == t[1] && s[i + 6] == t[6] && s[i + 7] == t[7];
      assert s[i + 2..i + 6] == t[2..6] == p.high;
      assert s[i + 8..i + 12] == t[8..12] == p.low;
    }
  }

  /** What the reader accepts is a literal of the grammar. */
  lemma {:induction false} StringSound(s: Text, i: nat)
    requires StringAt(s, i).Some?
    ensures var ps := StringAt(s, i).value; ArePieces(Native, ps) && At(s, i, PiecesText(ps) + [QUOTE])
    decreases |s| - i
  {
    hide PieceAt, IsPiece, PieceText;
    if s[i] != QUOTE {
      var p := PieceAt(s, i).value;
      var rest := StringAt(s, i + |PieceText(p)|).value;
      PieceSound(s, i);
      StringSound(s, i + |PieceText(p)|);
      AtConcat(s, i, PieceText(p), PiecesText(rest) + [QUOTE]);
      assert ([p] + rest)[1..] == rest;
      assert PieceText(p) + (PiecesText(rest) + [QUOTE]) == PiecesText([p] + rest) + [QUOTE];
    } else {
      assert PiecesText([]) + [QUOTE] == s[i..i + 1];
    }
  }

  /** Every literal of the grammar is read whole. */
  lemma {:induction false} StringComplete(s: Text, i: nat, ps: seq<Piece>)
    requires ArePieces(Native, ps) && At(s, i, PiecesText(ps) + [QUOTE])
    ensures StringAt(s, i) == Some(ps)
    decreases |ps|
  {
    hide PieceAt, IsPiece, PieceText;
    if ps == [] {
      assert s[i..i + 1][0] == QUOTE;
    } else {
      var rest := PiecesText(ps[1..]) + [QUOTE];
      assert PiecesText(ps) + [QUOTE] == PieceText(ps[0]) + rest;
      AtConcat(s, i, PieceText(ps[0]), rest);
      PieceComplete(s, i, ps[0]);
      StringComplete(s, i + |PieceText(ps[0])|, ps[1..]);
      assert [ps[0]] + ps[1..] == ps;
    }
  }

  lemma LiteralSound(s: Text, i: nat)
    requires LiteralAt(s, i).Some?
    ensures var ps := LiteralAt(s, i).value; ArePieces(Native, ps) && At(s, i, StringText(ps))
  {
    StringSound(s, i + 1);
    var ps := LiteralAt(s, i).value;
    AtConcat(s, i, [QUOTE], PiecesText(ps) + [QUOTE]);
    assert [QUOTE] + (PiecesText(ps) + [QUOTE]) == StringText(ps);
  }

  lemma LiteralComplete(s: Text, i: nat, ps: seq<Piece>)
    requires ArePieces(Native, ps) && At(s, i, StringText(ps))
    ensures LiteralAt(s, i) == Some(ps)
  {
    assert [QUOTE] + (PiecesText(ps) + [QUOTE]) == StringText(ps);
    AtConcat(s, i, [QUOTE], PiecesText(ps) + [QUOTE]);
    assert s[i..i + 1][0] == QUOTE;
    StringComplete(s, i + 1, ps);
  }

  // ----- ParseHex4 and ParseString -----

  method ParseHex4(input: Text, cursor: nat) returns (ok: bool, value: nat)
    ensures ok == Hex4(input, cursor).Some?
    ensures ok ==> value == Hex4(input, cursor).value
  {
    value := 0;
    if cursor + 4 > |input| { return false, 0; }
    ghost var digits := input[cursor..cursor + 4];
    for i := 0 to 4
      invariant HexValue(digits[..i]) == Some(value)
    {
      var c := input[cursor + i];
      assert digits[..i + 1][..i] == digits[..i];
      value := value * 16;
      if 0x30 <= c <= 0x39 { value := value + (c - 0x30); }
      else if 0x61 <= c <= 0x66 { value := value + (c - 0x61 + 10); }
      else if 0x41 <= c <= 0x46 { value := value + (c - 0x41 + 10); }
      else {
        NotHex(digits, i);
        return false, 0;
      }
    }
    assert digits[..4] == digits;
    return true, value;
  }

  lemma {:induction false} NotHex(digits: Text, i: nat)
    requires i < |digits| && HexDigit(digits[i]).None?
    ensures HexValue(digits).None?
    decreases |digits|
  {
    if i < |digits| - 1 { NotHex(digits[..|digits| - 1], i); }
  }

  /** The part of an escape after the letter u. */
  method ParseUnicodeEscape(input: Text, start: nat) returns (ok: bool, codePoint: Scalar, cursor: nat)
    requires start <= |input|
    ensures ok == HexPieceAt(input, start).Some?
    ensures ok ==> var p := HexPieceAt(input, start).value;
                   && IsPiece(Native, p) && !p.Raw? && codePoint == PieceScalar(p)
                   && cursor == start - 2 + |PieceText(p)| && cursor <= |input|
  {
    hide HexValue;
    codePoint, cursor := 0, start;
    var found, first := ParseHex4(input, cursor);
    if !found { return false, 0, cursor; }
    cursor := cursor + 4;
    if 0xD800 <= first <= 0xDBFF {
      if cursor + 6 > |input| || input[cursor] != BACKSLASH || input[cursor + 1] != LOWER_U { return false, 0, cursor; }
      cursor := cursor + 2;
      var also, second := ParseHex4(input, cursor);
      if !also || second < 0xDC00 || second > 0xDFFF { return false, 0, cursor; }
      cursor := cursor + 4;
      return true, 0x10000 + (first - 0xD800) * 1024 + (second - 0xDC00), cursor;
    } else if 0xDC00 <= first <= 0xDFFF {
      return false, 0, cursor;
    }
    return true, first, cursor;
  }

  /** One escape, its backslash at start: the code point it stands for and the position after it. */
  method ParseEscape(input: Text, start: nat) returns (ok: bool, codePoint: Scalar, cursor: nat)
    requires start < |input| && input[start] == BACKSLASH
    ensures ok == PieceAt(input, start).Some?
    ensures ok ==> var p := PieceAt(input, start).value;
                   && IsPiece(Native, p) && !p.Raw? && codePoint == PieceScalar(p)
                   && cursor == start + |PieceText(p)| <= |input|
  {
    hide HexPieceAt;
    codePoint, cursor := 0, start + 1;
    if cursor >= |input| { return false, 0, cursor; }
    var c := input[cursor];
    cursor := cursor + 1;
    if c == LOWER_U {
      ok, codePoint, cursor := ParseUnicodeEscape(input, cursor);
    } else {
      match ShortValue(c) {
        case Some(v) => return true, v, cursor;
        case None => return false, 0, cursor;
      }
    }
  }

  /** The reader stands at cursor: done was read since the opening quote and output is its value. */
  ghost predicate Reading(s: Text, start: nat, done: seq<Piece>, cursor: nat, output: Text) {
    && start < |s| && s[start] == QUOTE && start < cursor <= |s| && ArePieces(Native, done)
    && output == PiecesValue(done) && cursor == start + 1 + |PiecesText(done)|
    && var rest := StringAt(s, cursor);
       LiteralAt(s, start) == if rest.None? then None else Some(done + rest.value)
  }

  method ParseString(input: Text, start: nat) returns (ok: bool, cursor: nat, output: Text)
    ensures ok == LiteralAt(input, start).Some?
    ensures ok ==> var ps := LiteralAt(input, start).value;
                   ArePieces(Native, ps) && output == PiecesValue(ps) && cursor == start + |StringText(ps)| <= |input|
  {
    hide *;
    cursor, output := start, [];
    ReadingStarts(input, start);
    if cursor >= |input| || input[cursor] != QUOTE { return false, cursor, output; }
    cursor := cursor + 1;
    ghost var done: seq<Piece> := [];
    while cursor < |input|
      invariant start < cursor <= |input|
      invariant Reading(input, start, done, cursor, output)
      decreases |input| - cursor
    {
      var c := input[cursor];
      if c == QUOTE {
        ReadingEnds(input, start, done, cursor, output);
        return true, cursor + 1, output;
      }
      ReadingSteps(input, start, done, cursor, output);
      ghost var p := PieceAt(input, cursor);
      if c != BACKSLASH {
        RawOctet(input, cursor);
        if c < 0x20 { return false, cursor, output; }
        output := output + [c];
        cursor := cursor + 1;
      } else {
        var escaped, codePoint, next := ParseEscape(input, cursor);
        if !escaped { return false, cursor, output; }
        EscapeValue(p.value);
        output := output + EncodeScalar(codePoint);
        cursor := next;
      }
      done := done + [p.value];
    }
    ReadingEnds(input, start, done, cursor, output);
    return false, cursor, output;
  }

  lemma ReadingStarts(s: Text, start: nat)
    ensures if start < |s| && s[start] == QUOTE then Reading(s, start, [], start + 1, []) else LiteralAt(s, start).None?
  {
    var whole := StringAt(s, start + 1);
    if whole.Some? { assert [] + whole.value == whole.value; }
  }

  lemma ReadingSteps(s: Text, start: nat, done: seq<Piece>, i: nat, output: Text)
    requires Reading(s, start, done, i, output) && i < |s| && s[i] != QUOTE
    ensures var p := PieceAt(s, i);
            if p.None? then LiteralAt(s, start).None?
            else IsPiece(Native, p.value)
                 && Reading(s, start, done + [p.value], i + |PieceText(p.value)|, output + PieceValue(p.value))
  {
    hide PieceAt, PieceText, IsPiece, PieceValue;
    var p := PieceAt(s, i);
    if p.Some? {
      PieceSound(s, i);
      Append(done, p.value);
      var rest := StringAt(s, i + |PieceText(p.value)|);
      if rest.Some? { assert done + ([p.value] + rest.value) == done + [p.value] + rest.value; }
    }
  }

  lemma ReadingEnds(s: Text, start: nat, done: seq<Piece>, i: nat, output: Text)
    requires Reading(s, start, done, i, output) && (i < |s| ==> s[i] == QUOTE)
    ensures i == |s| ==> LiteralAt(s, start).None?
    ensures i < |s| ==> LiteralAt(s, start) == Some(done) && ArePieces(Native, done)
                        && output == PiecesValue(done) && i + 1 == start + |StringText(done)|
  {
    assert done + [] == done;
  }

  lemma EscapeValue(p: Piece)
    requires IsPiece(Native, p) && !p.Raw?
    ensures PieceValue(p) == EncodeScalar(PieceScalar(p))
  {
  }

  lemma RawOctet(s: Text, i: nat)
    requires i < |s| && s[i] != QUOTE && s[i] != BACKSLASH
    ensures PieceAt(s, i) == if s[i] < 0x20 then None else Some(Raw(s[i]))
    ensures s[i] >= 0x20 ==> var p := Raw(s[i]); IsPiece(Native, p) && PieceText(p) == [s[i]] && PieceValue(p) == [s[i]]
  {
  }

  lemma {:induction false} Append(ps: seq<Piece>, p: Piece)
    requires ArePieces(Native, ps) && IsPiece(Native, p)
    ensures ArePieces(Native, ps + [p])
    ensures PiecesText(ps + [p]) == PiecesText(ps) + PieceText(p)
    ensures PiecesValue(ps + [p]) == PiecesValue(ps) + PieceValue(p)
  {
    hide IsPiece, PieceText, PieceValue;
    if ps == [] {
      assert ps + [p] == [p] && [p][1..] == [];
    } else {
      assert (ps + [p])[1..] == ps[1..] + [p];
      Append(ps[1..], p);
    }
  }

  // ----- EscapeJsonString -----

  predicate IsOctets(s: Text) {
    forall k | 0 <= k < |s| :: 0 <= s[k] < 256
  }

  function LowerHex(v: int): int
    requires 0 <= v < 16
  {
    if v < 10 then 0x30 + v else 0x61 + (v - 10)
  }

  function EscapePiece(c: int): Piece
    requires c >= 0
  {
    if c == QUOTE || c == BACKSLASH then Short(c)
    else if c == 0x08 then Short(0x62)
    else if c == 0x0C then Short(0x66)
    else if c == 0x0A then Short(0x6E)
    else if c == 0x0D then Short(0x72)
    else if c == 0x09 then Short(0x74)
    else if c < 0x20 then Hex([0x30, 0x30, LowerHex(c / 16), LowerHex(c % 16)])
    else Raw(c)
  }

  function EscapePieces(s: Text): seq<Piece>
    requires IsOctets(s)
  {
    if s == [] then [] else [EscapePiece(s[0])] + EscapePieces(s[1..])
  }

  function Escape(s: Text): Text
    requires IsOctets(s)
  {
    PiecesText(EscapePieces(s))
  }

  method EscapeJsonString(value: bytes) returns (result: Text)
    ensures result == Escape(value)
  {
    hide Escape, EscapePiece, PieceText;
    result := [];
    assert value[0..] == value;
    for i := 0 to |value|
      invariant IsOctets(value[i..]) && result + Escape(value[i..]) == Escape(value)
    {
      var c := value[i];
      assert value[i..][1..] == value[i + 1..];
      EscapeStep(value[i..]);
      EscapeCases(c);
      match c {
        case 0x22 => result := result + [BACKSLASH, QUOTE];
        case 0x5C => result := result + [BACKSLASH, BACKSLASH];
        case 0x08 => result := result + [BACKSLASH, 0x62];
        case 0x0C => result := result + [BACKSLASH, 0x66];
        case 0x0A => result := result + [BACKSLASH, 0x6E];
        case 0x0D => result := result + [BACKSLASH, 0x72];
        case 0x09 => result := result + [BACKSLASH, 0x74];
        case _ =>
          if c < 0x20 {
            result := result + [BACKSLASH, LOWER_U, 0x30, 0x30];
            result := result + [LowerHex(c / 16), LowerHex(c % 16)];
          } else {
            result := result + [c];
          }
      }
    }
    EscapeEnd();
  }

  lemma EscapeEnd()
    ensures Escape([]) == []
  {
  }

  lemma EscapeStep(s: Text)
    requires IsOctets(s) && s != []
    ensures Escape(s) == PieceText(EscapePiece(s[0])) + Escape(s[1..])
  {
    assert EscapePieces(s)[1..] == EscapePieces(s[1..]);
  }

  lemma EscapeCases(c: int)
    requires 0 <= c < 256
    ensures var t := PieceText(EscapePiece(c));
            match c
            case 0x22 => t == [BACKSLASH, QUOTE]
            case 0x5C => t == [BACKSLASH, BACKSLASH]
            case 0x08 => t == [BACKSLASH, 0x62]
            case 0x0C => t == [BACKSLASH, 0x66]
            case 0x0A => t == [BACKSLASH, 0x6E]
            case 0x0D => t == [BACKSLASH, 0x72]
            case 0x09 => t == [BACKSLASH, 0x74]
            case _ => t == if c < 0x20 then [BACKSLASH, LOWER_U, 0x30, 0x30, LowerHex(c / 16), LowerHex(c % 16)]
              else [c]
  {
  }

  lemma EscapePieceReadsBack(c: int)
    requires 0 <= c < 256
    ensures IsPiece(Native, EscapePiece(c)) && PieceValue(EscapePiece(c)) == [c]
  {
    if EscapePiece(c).Hex? {
      var digits := [0x30, 0x30, LowerHex(c / 16), LowerHex(c % 16)];
      assert digits[..3] == [0x30, 0x30, LowerHex(c / 16)];
      assert digits[..3][..2] == [0x30, 0x30];
      assert [0x30, 0x30][..1] == [0x30] && [0x30][..0] == [];
      assert HexValue([]) == Some(0);
      assert HexValue([0x30]) == Some(0);
      assert HexValue([0x30, 0x30]) == Some(0);
      assert HexValue(digits[..3]) == Some(c / 16);
      assert HexValue(digits) == Some(c);
    }
  }

  lemma {:induction false} EscapeReadsBack(s: Text)
    requires IsOctets(s)
    ensures ArePieces(Native, EscapePieces(s)) && PiecesValue(EscapePieces(s)) == s
  {
    hide EscapePiece, IsPiece, PieceValue;
    if s != [] {
      EscapePieceReadsBack(s[0]);
      EscapeReadsBack(s[1..]);
      assert EscapePieces(s)[1..] == EscapePieces(s[1..]);
      assert s == [s[0]] + s[1..];
    }
  }

  /** Reading the quoted escape of any octets gives them back and stops right after the closing quote. */
  lemma EscapeRoundTrip(input: Text, start: nat, s: Text)
    requires IsOctets(s) && At(input, start, [QUOTE] + Escape(s) + [QUOTE])
    ensures var ps := EscapePieces(s);
            && ArePieces(Native, ps) && LiteralAt(input, start) == Some(ps) && PiecesValue(ps) == s
            && |StringText(ps)| == |Escape(s)| + 2
  {
    EscapeReadsBack(s);
    LiteralComplete(input, start, EscapePieces(s));
  }

  // ----- Decoded strings stay UTF-8 -----

  lemma {:induction false} AsciiRun(s: Text, i: nat, n: nat)
    requires i + n <= |s| && forall k | i <= k < i + n :: 0 <= s[k] < 0x80
    ensures ValidFrom(s, i) == ValidFrom(s, i + n)
    decreases n
  {
    if n > 0 { AsciiRun(s, i + 1, n - 1); }
  }

  lemma {:induction false} HexDigitsAreAscii(digits: Text)
    requires HexValue(digits).Some?
    ensures forall k | 0 <= k < |digits| :: 0 <= digits[k] < 0x80
  {
    if digits != [] {
      var n := |digits| - 1;
      HexDigitsAreAscii(digits[..n]);
      assert digits == digits[..n] + [digits[n]];
    }
  }

  lemma PieceIsAscii(p: Piece)
    requires IsPiece(Native, p) && (p.Raw? ==> p.c < 0x80)
    ensures forall k | 0 <= k < |PieceText(p)| :: 0 <= PieceText(p)[k] < 0x80
  {
    if p.Hex? { HexDigitsAreAscii(p.digits); }
    if p.Pair? {
      HexDigitsAreAscii(p.high);
      HexDigitsAreAscii(p.low);
    }
  }

  /** The octets of a multi-octet character are read as that many raw pieces. */
  lemma {:induction false} RawRun(s: Text, i: nat, n: nat)
    requires i + n <= |s| && StringAt(s, i).Some? && forall k | i <= k < i + n :: s[k] >= 0x80
    ensures var ps := StringAt(s, i).value;
            && ArePieces(Native, ps) && n <= |ps|
            && StringAt(s, i + n) == Some(ps[n..]) && PiecesValue(ps) == s[i..i + n] + PiecesValue(ps[n..])
            && |PiecesText(ps)| == n + |PiecesText(ps[n..])|
    decreases n
  {
    hide PieceAt, PieceText, IsPiece, PieceValue;
    StringSound(s, i);
    var ps := StringAt(s, i).value;
    if n > 0 {
      RawOctet(s, i);
      RawRun(s, i + 1, n - 1);
      assert ps[1..][n - 1..] == ps[n..];
      assert s[i..i + n] == [s[i]] + s[i + 1..i + n];
    } else {
      assert ps[0..] == ps;
    }
  }

  lemma ScalarPrefix(v: Scalar, x: Text)
    requires Valid(x)
    ensures Valid(EncodeScalar(v) + x)
  {
    assert EncodeAll([v]) == EncodeScalar(v) + EncodeAll([]);
    assert EncodeAll([v]) == EncodeScalar(v);
    ReadEncoded(EncodeScalar(v), 0, [v]);
    ValidConcat(EncodeScalar(v), x);
  }

  /** Reading a string from well-formed UTF-8 yields well-formed UTF-8 and leaves well-formed UTF-8 behind. */
  lemma {:induction false} StringKeepsUtf8(s: Text, i: nat)
    requires ValidFrom(s, i) && StringAt(s, i).Some?
    ensures var ps := StringAt(s, i).value;
            && ArePieces(Native, ps) && Valid(PiecesValue(ps)) && ValidFrom(s, i + |PiecesText(ps)| + 1)
    decreases |s| - i
  {
    hide DecodeOne, EncodeScalar, PieceAt, PieceText, PieceValue, IsPiece;
    if s[i] == QUOTE {
      AsciiRun(s, i, 1);
    } else {
      hide *;
      var n, v := FirstScalar(s, i);
      StringKeepsUtf8(s, i + n);
      ScalarPrefix(v, PiecesValue(StringAt(s, i + n).value));
    }
  }

  /** A string starts with one code point, raw or escaped, and goes on well-formed. */
  lemma FirstScalar(s: Text, i: nat) returns (n: nat, v: Scalar)
    requires ValidFrom(s, i) && StringAt(s, i).Some? && s[i] != QUOTE
    ensures 1 <= n && i + n <= |s| && ValidFrom(s, i + n) && StringAt(s, i + n).Some?
    ensures var ps, rest := StringAt(s, i).value, StringAt(s, i + n).value;
            && ArePieces(Native, ps) && ArePieces(Native, rest)
            && PiecesValue(ps) == EncodeScalar(v) + PiecesValue(rest) && |PiecesText(ps)| == n + |PiecesText(rest)|
  {
    hide *;
    FirstPiece(s, i);
    if s[i] >= 0x80 {
      n, v := FirstMultiOctet(s, i);
      RawRun(s, i, n);
    } else {
      AsciiPiece(s, i);
      n, v := |PieceText(PieceAt(s, i).value)|, PieceScalar(PieceAt(s, i).value);
    }
    StringSound(s, i + n);
  }

  lemma FirstMultiOctet(s: Text, i: nat) returns (n: nat, v: Scalar)
    requires ValidFrom(s, i) && i < |s| && s[i] >= 0x80
    ensures 1 <= n && i + n <= |s| && ValidFrom(s, i + n) && s[i..i + n] == EncodeScalar(v)
    ensures forall k | i <= k < i + n :: s[k] >= 0x80
  {
    hide DecodeOne, EncodeScalar;
    MultiOctet(s, i);
    n, v := DecodeOne(s, i).width, DecodeOne(s, i).value;
  }

  lemma AsciiPiece(s: Text, i: nat)
    requires i < |s| && s[i] < 0x80 && PieceAt(s, i).Some?
    ensures var p := PieceAt(s, i).value;
            && IsPiece(Native, p) && (p.Raw? ==> p.c < 0x80) && PieceValue(p) == EncodeScalar(PieceScalar(p))
            && i + |PieceText(p)| <= |s| && ValidFrom(s, i) == ValidFrom(s, i + |PieceText(p)|)
  {
    PieceSound(s, i);
    var p := PieceAt(s, i).value;
    assert p.Raw? ==> p.c < 0x80;
    hide PieceAt, EncodeScalar, PieceScalar;
    PieceIsAscii(p);
    hide PieceText, IsPiece;
    var t := PieceText(p);
    assert forall k {:trigger s[k]} | i <= k < i + |t| :: s[k] == s[i..i + |t|][k - i];
    AsciiRun(s, i, |t|);
  }

  lemma FirstPiece(s: Text, i: nat)
    requires StringAt(s, i).Some? && s[i] != QUOTE
    ensures i < |s| && PieceAt(s, i).Some? && StringAt(s, i + |PieceText(PieceAt(s, i).value)|).Some?
    ensures var ps, p := StringAt(s, i).value, PieceAt(s, i).value;
            var rest := StringAt(s, i + |PieceText(p)|).value;
            && ArePieces(Native, ps) && IsPiece(Native, p) && ArePieces(Native, rest)
            && PiecesValue(ps) == PieceValue(p) + PiecesValue(rest)
            && |PiecesText(ps)| == |PieceText(p)| + |PiecesText(rest)|
  {
    hide PieceAt, PieceText, IsPiece, PieceValue;
    StringSound(s, i);
    PieceSound(s, i);
    StringSound(s, i + |PieceText(PieceAt(s, i).value)|);
    assert StringAt(s, i).value[1..] == StringAt(s, i + |PieceText(PieceAt(s, i).value)|).value;
  }

  lemma MultiOctet(s: Text, i: nat)
    requires i < |s| && s[i] >= 0x80 && DecodeOne(s, i).valid
    ensures var d := DecodeOne(s, i);
            && IsScalar(d.value) && s[i..i + d.width] == EncodeScalar(d.value)
            && forall k | i <= k < i + d.width :: s[k] >= 0x80
  {
    EncodeDecoded(s, i);
    hide DecodeOne;
    var d := DecodeOne(s, i);
    var e := EncodeScalar(d.value);
    assert e[0] == s[i..i + d.width][0] == s[i];
    assert forall k {:trigger s[k]} | i <= k < i + d.width :: s[k] == s[i..i + d.width][k - i];
  }
}
