/**
 * JSON texts as derivation trees (sections 2 to 7 of RFC 8259). A tree keeps every insignificant space, escape
 * and digit, so that flattening it gives back the very text. The two readers of the repository differ in what
 * they take for white space and in surrogate escapes; Rules says which of the two a tree obeys, or only what
 * both have in common.
 */
module JsonGrammar {
  import opened Basics
  import opened Utf8

  const QUOTE := 0x22
  const BACKSLASH := 0x5C
  const COMMA := 0x2C
  const COLON := 0x3A
  const MINUS := 0x2D
  const POINT := 0x2E
  const OPEN_BRACE := 0x7B
  const CLOSE_BRACE := 0x7D
  const OPEN_BRACKET := 0x5B
  const CLOSE_BRACKET := 0x5D

  /**
   * Native: white space of the C locale, surrogate escapes only in pairs. Rfc8259: exactly that. Lenient: the white
   * space of the one with the escapes of the other.
   */
  datatype Rules = Native | Rfc8259 | Lenient

  predicate IsSpace(rules: Rules, c: int) {
    c == 0x20 || c == 0x09 || c == 0x0A || c == 0x0D || (rules != Rfc8259 && (c == 0x0B || c == 0x0C))
  }

  const RFC_SPACES := " \t\n\r"

  /** isspace of the C locale: the blank and 9 to 13. In RFC 8259: blank, tab, line feed, carriage return. */
  lemma SpacesAre(c: int)
    ensures IsSpace(Native, c) <==> c == 32 || 9 <= c <= 13
    ensures IsSpace(Rfc8259, c) <==> exists k | 0 <= k < 4 :: c == RFC_SPACES[k] as int
  {
    assert RFC_SPACES[0] as int == 0x20 && RFC_SPACES[1] as int == 0x09;
    assert RFC_SPACES[2] as int == 0x0A && RFC_SPACES[3] as int == 0x0D;
  }

  predicate IsPad(rules: Rules, s: Text) {
    forall k | 0 <= k < |s| :: IsSpace(rules, s[k])
  }

  predicate IsDigit(c: int) {
    0x30 <= c <= 0x39
  }

  predicate AreDigits(s: Text) {
    forall k | 0 <= k < |s| :: IsDigit(s[k])
  }

  // ----- Strings -----

  /** One unit of a string: a plain character, a two-character escape, or one or two four-digit escapes. */
  datatype Piece = Raw(c: int) | Short(c: int) | Hex(digits: Text) | Pair(high: Text, low: Text)

  function HexDigit(c: int): Option<int> {
    if 0x30 <= c <= 0x39 then Some(c - 0x30)
    else if 0x61 <= c <= 0x66 then Some(c - 0x61 + 10)
    else if 0x41 <= c <= 0x46 then Some(c - 0x41 + 10)
    else None
  }

  const LOWER_DIGITS := "0123456789abcdef"
  const UPPER_DIGITS := "0123456789ABCDEF"

  /** The hexadecimal digits, in both cases. */
  lemma HexDigitsAre(c: int, v: int)
    ensures HexDigit(c) == Some(v) <==> 0 <= v < 16 && (c == LOWER_DIGITS[v] as int || c == UPPER_DIGITS[v] as int)
  {
    if 0 <= v < 8 {
      assert LOWER_DIGITS[v] as int == UPPER_DIGITS[v] as int == 0x30 + v;
    } else if 8 <= v < 10 {
      assert LOWER_DIGITS[v] as int == UPPER_DIGITS[v] as int == 0x30 + v;
    } else if 10 <= v < 16 {
      assert LOWER_DIGITS[v] as int == 0x61 + v - 10;
      assert UPPER_DIGITS[v] as int == 0x41 + v - 10;
    }
  }

  function HexValue(digits: Text): (r: Option<int>)
    ensures r.Some? ==> 0 <= r.value
    ensures r.Some? && |digits| <= 1 ==> r.value < 0x10
    ensures r.Some? && |digits| <= 2 ==> r.value < 0x100
    ensures r.Some? && |digits| <= 3 ==> r.value < 0x1000
    ensures r.Some? && |digits| <= 4 ==> r.value < 0x10000
  {
    if digits == [] then Some(0)
    else
      var n := |digits| - 1;
      var high, low := HexValue(digits[..n]), HexDigit(digits[n]);
      if high.None? || low.None? then None else Some(high.value * 16 + low.value)
  }

  /** What the character after a backslash stands for. */
  function ShortValue(c: int): Option<int> {
    if c == QUOTE || c == BACKSLASH || c == 0x2F then Some(c)
    else if c == 0x62 then Some(0x08)
    else if c == 0x66 then Some(0x0C)
    else if c == 0x6E then Some(0x0A)
    else if c == 0x72 then Some(0x0D)
    else if c == 0x74 then Some(0x09)
    else None
  }

  const SHORT_NAMES := "\"\\/bfnrt"
  const SHORT_VALUES: Text := [0x22, 0x5C, 0x2F, 0x08, 0x0C, 0x0A, 0x0D, 0x09]

  /** The eight two-character escapes of section 7 of RFC 8259, and no other. */
  lemma ShortValuesAre(c: int, v: int)
    ensures ShortValue(c) == Some(v) <==> exists k | 0 <= k < 8 :: c == SHORT_NAMES[k] as int && v == SHORT_VALUES[k]
  {
    assert SHORT_NAMES[0] as int == QUOTE && SHORT_NAMES[1] as int == BACKSLASH && SHORT_NAMES[2] as int == 0x2F;
    assert SHORT_NAMES[3] as int == 0x62 && SHORT_NAMES[4] as int == 0x66 && SHORT_NAMES[5] as int == 0x6E;
    assert SHORT_NAMES[6] as int == 0x72 && SHORT_NAMES[7] as int == 0x74;
  }

  predicate IsHighSurrogate(v: int) {
    0xD800 <= v <= 0xDBFF
  }

  predicate IsLowSurrogate(v: int) {
    0xDC00 <= v <= 0xDFFF
  }

  predicate IsPiece(rules: Rules, p: Piece) {
    match p
    case Raw(c) => c >= 0x20 && c != QUOTE && c != BACKSLASH
    case Short(c) => ShortValue(c).Some?
    case Hex(digits) =>
      |digits| == 4 && HexValue(digits).Some? && (rules == Native ==> IsScalar(HexValue(digits).value))
    case Pair(high, low) =>
      && rules == Native && |high| == |low| == 4 && HexValue(high).Some? && HexValue(low).Some?
      && IsHighSurrogate(HexValue(high).value) && IsLowSurrogate(HexValue(low).value)
  }

  predicate ArePieces(rules: Rules, ps: seq<Piece>) {
    forall k | 0 <= k < |ps| :: IsPiece(rules, ps[k])
  }

  function PieceText(p: Piece): (r: Text)
    ensures |r| >= 1
  {
    match p
    case Raw(c) => [c]
    case Short(c) => [BACKSLASH, c]
    case Hex(digits) => [BACKSLASH, 0x75] + digits
    case Pair(high, low) => [BACKSLASH, 0x75] + high + ([BACKSLASH, 0x75] + low)
  }

  function PiecesText(ps: seq<Piece>): Text {
    if ps == [] then [] else PieceText(ps[0]) + PiecesText(ps[1..])
  }

  /** A string literal with its quotes. */
  function StringText(ps: seq<Piece>): Text {
    [QUOTE] + PiecesText(ps) + [QUOTE]
  }

  // ----- Numbers -----

  /** digits == [] : no exponent. mark is e or E with an optional sign. */
  datatype Scale = Scale(mark: Text, digits: Text)

  /** frac == [] : no fraction. */
  datatype Number = Number(negative: bool, whole: Text, frac: Text, scale: Scale)

  predicate IsMark(m: Text) {
    1 <= |m| <= 2 && (m[0] == 0x65 || m[0] == 0x45) && (|m| == 2 ==> m[1] == 0x2B || m[1] == MINUS)
  }

  predicate IsScale(e: Scale) {
    AreDigits(e.digits) && (if e.digits == [] then e.mark == [] else IsMark(e.mark))
  }

  predicate IsWhole(w: Text) {
    AreDigits(w) && |w| >= 1 && (w[0] == 0x30 ==> |w| == 1)
  }

  predicate IsNumber(n: Number) {
    IsWhole(n.whole) && AreDigits(n.frac) && IsScale(n.scale)
  }

  function ScaleText(e: Scale): Text {
    e.mark + e.digits
  }

  function FractionText(frac: Text): Text {
    if frac == [] then [] else [POINT] + frac
  }

  function TailText(frac: Text, e: Scale): Text {
    FractionText(frac) + ScaleText(e)
  }

  function SignText(negative: bool): Text {
    if negative then [MINUS] else []
  }

  function NumberText(n: Number): Text {
    SignText(n.negative) + (n.whole + TailText(n.frac, n.scale))
  }

  // ----- Values -----

  datatype Word = True | False | Null

  function WordText(w: Word): Text {
    match w
    case True => [0x74, 0x72, 0x75, 0x65]
    case False => [0x66, 0x61, 0x6C, 0x73, 0x65]
    case Null => [0x6E, 0x75, 0x6C, 0x6C]
  }

  datatype Json =
    | Str(pieces: seq<Piece>)
    | Num(number: Number)
    | Lit(word: Word)
    | Obj(members: Members)
    | Arr(items: Items)

  /** pad stands before the key or before the closing bracket of an empty object, trail before a comma or bracket. */
  datatype Members =
    | NoMember(pad: Text)
    | Member(pad: Text, key: seq<Piece>, gap: Text, lead: Text, value: Json, trail: Text, rest: Members)

  datatype Items =
    | NoItem(pad: Text)
    | Item(pad: Text, value: Json, trail: Text, rest: Items)

  function Flatten(t: Json): Text {
    match t
    case Str(pieces) => StringText(pieces)
    case Num(number) => NumberText(number)
    case Lit(word) => WordText(word)
    case Obj(members) => [OPEN_BRACE] + MembersText(members)
    case Arr(items) => [OPEN_BRACKET] + ItemsText(items)
  }

  /** The text after an opening brace or a comma, closing brace included. */
  function MembersText(ms: Members): Text {
    match ms
    case NoMember(pad) => pad + [CLOSE_BRACE]
    case Member(pad, key, gap, lead, value, trail, rest) =>
      pad + (StringText(key) + (gap + ([COLON] + (lead + (Flatten(value)
        + (trail + (Separator(rest.Member?) + MembersText(rest))))))))
  }

  function ItemsText(xs: Items): Text {
    match xs
    case NoItem(pad) => pad + [CLOSE_BRACKET]
    case Item(pad, value, trail, rest) =>
      pad + (Flatten(value) + (trail + (Separator(rest.Item?) + ItemsText(rest))))
  }

  function Separator(more: bool): Text {
    if more then [COMMA] else []
  }

  /** t obeys the rules and nests at most room levels below itself. */
  predicate IsJson(rules: Rules, t: Json, room: int)
    decreases t, 0
  {
    room >= 0 &&
    match t
    case Str(pieces) => ArePieces(rules, pieces)
    case Num(number) => IsNumber(number)
    case Lit(_) => true
    case Obj(members) => AreMembers(rules, members, room - 1)
    case Arr(items) => AreItems(rules, items, room - 1)
  }

  predicate AreMembers(rules: Rules, ms: Members, room: int)
    decreases ms, 0
  {
    match ms
    case NoMember(pad) => IsPad(rules, pad)
    case Member(pad, key, gap, lead, value, trail, rest) =>
      && IsPad(rules, pad) && ArePieces(rules, key) && IsPad(rules, gap) && IsPad(rules, lead)
      && IsJson(rules, value, room) && IsPad(rules, trail)
      && (rest.NoMember? ==> rest.pad == []) && AreMembers(rules, rest, room)
  }

  predicate AreItems(rules: Rules, xs: Items, room: int)
    decreases xs, 0
  {
    match xs
    case NoItem(pad) => IsPad(rules, pad)
    case Item(pad, value, trail, rest) =>
      && IsPad(rules, pad) && IsJson(rules, value, room) && IsPad(rules, trail)
      && (rest.NoItem? ==> rest.pad == []) && AreItems(rules, rest, room)
  }

  // ----- Delimiters -----

  /** What may follow a value: the end, white space, a comma or a closing bracket. */
  predicate Delimited(rules: Rules, s: Text, i: nat) {
    i >= |s| || IsSpace(rules, s[i]) || s[i] == COMMA || s[i] == CLOSE_BRACE || s[i] == CLOSE_BRACKET
  }

  lemma PiecesConcat(a: seq<Piece>, b: seq<Piece>)
    ensures PiecesText(a + b) == PiecesText(a) + PiecesText(b)
  {
    if a == [] {
      assert a + b == b;
    } else {
      assert (a + b)[1..] == a[1..] + b;
      PiecesConcat(a[1..], b);
    }
  }
}
