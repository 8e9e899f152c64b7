/** How the desktop's complexity scanner walks over a JSON text (apps/desktop/src/main/native-host/frame-codec.ts). */
module ScannedText {
  import opened Basics
  import opened JsonGrammar
  import opened JsonValues

  // ----- The scanner's primitives -----

  /** The class \s of a regular expression: more than JSON's white space. */
  predicate IsWhite(c: int) {
    0x09 <= c <= 0x0D || c == 0x20 || c == 0xA0 || c == 0x1680 || 0x2000 <= c <= 0x200A || c == 0x2028 || c == 0x2029
    || c == 0x202F || c == 0x205F || c == 0x3000 || c == 0xFEFF
  }

  function Skip(s: Text, i: nat): (r: nat)
    ensures i <= r && (i <= |s| ==> r <= |s|)
    decreases |s| - i
  {
    if i < |s| && IsWhite(s[i]) then Skip(s, i + 1) else i
  }

  /** The position after the closing quote, escaped characters passed over unseen. */
  function StringEnd(s: Text, i: nat, escaped: bool): (r: Option<nat>)
    ensures r.Some? ==> i < r.value <= |s|
    decreases |s| - i
  {
    if i >= |s| then None
    else if escaped then StringEnd(s, i + 1, false)
    else if s[i] == BACKSLASH then StringEnd(s, i + 1, true)
    else if s[i] == QUOTE then Some(i + 1)
    else StringEnd(s, i + 1, false)
  }

  /** The regular expression for scalars, greedy, each optional group taken only when complete. */
  function ScalarEnd(s: Text, i: nat): Option<nat> {
    if i > |s| then None
    else if WordAt(s, i).Some? then Some(i + |WordText(WordAt(s, i).value)|)
    else
      var j := if i < |s| && s[i] == MINUS then i + 1 else i;
      if j >= |s| || !IsDigit(s[j]) then None
      else
        var k := if s[j] == 0x30 then j + 1 else DigitRun(s, j);
        Some(ExponentEnd(s, FractionStop(s, k)))
  }

  function ExponentEnd(s: Text, f: nat): nat {
    if HasMark(s, f) then
      var m := if f + 1 < |s| && (s[f + 1] == 0x2B || s[f + 1] == MINUS) then f + 2 else f + 1;
      if DigitRun(s, m) > m then DigitRun(s, m) else f
    else f
  }

  // ----- Decoded keys, in UTF-16 units -----

  /** Every escape of four digits is one unit, surrogates alone included. */
  function PieceUnit(p: Piece): int
    requires IsPiece(Rfc8259, p)
  {
    match p
    case Raw(c) => c
    case Short(c) => ShortValue(c).value
    case Hex(digits) => HexValue(digits).value
  }

  function PieceUnits(ps: seq<Piece>): Text
    requires ArePieces(Rfc8259, ps)
  {
    if ps == [] then [] else [PieceUnit(ps[0])] + PieceUnits(ps[1..])
  }

  /** What JSON.parse makes of the literal that starts before i. */
  function UnitsFrom(s: Text, i: nat): Text
    decreases |s| - i
  {
    if i >= |s| || s[i] == QUOTE then []
    else if s[i] != BACKSLASH || i + 1 >= |s| then [s[i]] + UnitsFrom(s, i + 1)
    else if s[i + 1] == 0x75 && i + 6 <= |s| && HexValue(s[i + 2..i + 6]).Some? then
      [HexValue(s[i + 2..i + 6]).value] + UnitsFrom(s, i + 6)
    else [if ShortValue(s[i + 1]).Some? then ShortValue(s[i + 1]).value else s[i + 1]] + UnitsFrom(s, i + 2)
  }

  lemma PieceStands(s: Text, i: nat, p: Piece)
    requires IsPiece(Rfc8259, p) && At(s, i, PieceText(p))
    ensures i + |PieceText(p)| <= |s| && forall k {:trigger PieceText(p)[k]} | 0 <= k < |PieceText(p)| ::
            s[i + k] == PieceText(p)[k]
  {
  }

  lemma ScanRaw(s: Text, i: nat, n: nat)
    requires i + n <= |s| && forall k | i <= k < i + n :: s[k] != QUOTE && s[k] != BACKSLASH
    ensures StringEnd(s, i, false) == StringEnd(s, i + n, false)
    decreases n
  {
    if n > 0 { ScanRaw(s, i + 1, n - 1); }
  }

  lemma {:induction false} HexIsPlain(digits: Text)
    requires HexValue(digits).Some?
    ensures forall k | 0 <= k < |digits| :: digits[k] != QUOTE && digits[k] != BACKSLASH
  {
    if digits != [] {
      var n := |digits| - 1;
      HexIsPlain(digits[..n]);
      assert digits == digits[..n] + [digits[n]];
    }
  }

  lemma PieceScanned(s: Text, i: nat, p: Piece)
    requires IsPiece(Rfc8259, p) && At(s, i, PieceText(p))
    ensures StringEnd(s, i, false) == StringEnd(s, i + |PieceText(p)|, false)
  {
    PieceStands(s, i, p);
    var t := PieceText(p);
    assert s[i] == t[0];
    match p {
      case Raw(c) =>
      case Short(c) => assert s[i + 1] == t[1];
      case Hex(digits) =>
        assert s[i + 1] == t[1];
        HexIsPlain(digits);
        assert forall k | i + 2 <= k < i + 6 :: s[k] == t[k - i] == digits[k - i - 2];
        ScanRaw(s, i + 2, 4);
    }
  }

  lemma PieceDecoded(s: Text, i: nat, p: Piece)
    requires IsPiece(Rfc8259, p) && At(s, i, PieceText(p))
    ensures UnitsFrom(s, i) == [PieceUnit(p)] + UnitsFrom(s, i + |PieceText(p)|)
  {
    PieceStands(s, i, p);
    hide HexValue;
    var t := PieceText(p);
    assert s[i] == t[0];
    match p {
      case Raw(c) =>
      case Short(c) =>
        assert s[i + 1] == t[1];
        assert ShortValue(0x75).None?;
      case Hex(digits) =>
        assert s[i + 1] == t[1];
        assert s[i + 2..i + 6] == t[2..6] == digits;
    }
  }

  /** A literal of the grammar is scanned to its closing quote and decodes to its units. */
  lemma {:induction false} PiecesScanned(s: Text, i: nat, ps: seq<Piece>)
    requires ArePieces(Rfc8259, ps) && At(s, i, PiecesText(ps) + [QUOTE])
    ensures StringEnd(s, i, false) == Some(i + |PiecesText(ps)| + 1) && UnitsFrom(s, i) == PieceUnits(ps)
    decreases |ps|
  {
    hide PieceText, PieceUnit, IsPiece, At;
    AtConcat(s, i, PiecesText(ps), [QUOTE]);
    AtOne(s, i + |PiecesText(ps)|, QUOTE);
    if ps != [] {
      hide StringEnd, UnitsFrom;
      assert PiecesText(ps) + [QUOTE] == PieceText(ps[0]) + (PiecesText(ps[1..]) + [QUOTE]);
      AtConcat(s, i, PieceText(ps[0]), PiecesText(ps[1..]) + [QUOTE]);
      PieceScanned(s, i, ps[0]);
      PieceDecoded(s, i, ps[0]);
      PiecesScanned(s, i + |PieceText(ps[0])|, ps[1..]);
    }
  }

  lemma LiteralScanned(s: Text, j: nat, ps: seq<Piece>)
    requires ArePieces(Rfc8259, ps) && At(s, j, StringText(ps))
    ensures j < |s| && s[j] == QUOTE && StringEnd(s, j + 1, false) == Some(j + |StringText(ps)|)
    ensures UnitsFrom(s, j + 1) == PieceUnits(ps)
  {
    hide StringEnd, UnitsFrom, PiecesText, At, PieceUnits;
    assert StringText(ps) == [QUOTE] + (PiecesText(ps) + [QUOTE]);
    hide StringText;
    AtConcat(s, j, [QUOTE], PiecesText(ps) + [QUOTE]);
    AtOne(s, j, QUOTE);
    PiecesScanned(s, j + 1, ps);
  }

  // ----- Scalars -----

  lemma NumberScanned(rules: Rules, s: Text, i: nat, n: Number)
    requires IsNumber(n) && At(s, i, NumberText(n)) && Delimited(rules, s, i + |NumberText(n)|)
    ensures i < |s| && (s[i] == MINUS || IsDigit(s[i])) && ScalarEnd(s, i) == Some(i + |NumberText(n)|)
  {
    hide IsNumber, NumberText;
    NumberComplete(s, i, n);
    SameEnd(s, i);
  }

  function FractionStop(s: Text, k: nat): nat {
    if k + 1 < |s| && s[k] == POINT && IsDigit(s[k + 1]) then DigitRun(s, k + 1) else k
  }

  lemma SameFraction(s: Text, k: nat)
    requires k <= |s| && FractionEnd(s, k).Some?
    ensures FractionEnd(s, k).value == FractionStop(s, k)
  {
    hide DigitRun;
    DigitRunMoves(s, k + 1);
  }

  lemma SameExponent(s: Text, f: nat)
    requires f <= |s| && ScaleAt(s, f).Some?
    ensures ScaleAt(s, f).value.end == ExponentEnd(s, f)
  {
    hide DigitRun;
    DigitRunMoves(s, f + 1);
    DigitRunMoves(s, f + 2);
  }

  lemma SameEnd(s: Text, i: nat)
    requires i < |s| && (s[i] == MINUS || IsDigit(s[i])) && NumberAt(s, i).Some?
    ensures ScalarEnd(s, i) == Some(NumberAt(s, i).value.end)
  {
    NoWord(s, i);
    hide WordAt, FractionEnd, FractionStop, ScaleAt, ExponentEnd, DigitRun;
    var j := if s[i] == MINUS then i + 1 else i;
    var k := WholeEnd(s, j).value;
    SameFraction(s, k);
    SameExponent(s, FractionEnd(s, k).value);
  }

  lemma DigitRunMoves(s: Text, i: nat)
    ensures DigitRun(s, i) > i <==> i < |s| && IsDigit(s[i])
  {
  }

  lemma NoWord(s: Text, i: nat)
    requires i < |s| && (s[i] == MINUS || IsDigit(s[i]))
    ensures WordAt(s, i).None?
  {
    WordFirst(s, i, True);
    WordFirst(s, i, False);
    WordFirst(s, i, Null);
    hide At;
  }

  lemma WordFirst(s: Text, i: nat, w: Word)
    ensures At(s, i, WordText(w)) ==> i < |s| && s[i] == WordText(w)[0]
  {
    if At(s, i, WordText(w)) { assert s[i] == WordText(w)[0]; }
  }

  lemma WordScanned(s: Text, i: nat, w: Word)
    requires At(s, i, WordText(w))
    ensures i < |s| && s[i] == WordText(w)[0] && ScalarEnd(s, i) == Some(i + |WordText(w)|)
  {
    var t := WordText(w);
    assert s[i] == t[0];
    forall v | At(s, i, WordText(v)) ensures v == w {
      assert s[i] == WordText(v)[0];
    }
  }

  // ----- White space -----

  lemma {:induction false} SkipOver(rules: Rules, s: Text, i: nat, x: nat, pad: Text)
    requires At(s, i, pad) && IsPad(rules, pad) && i <= x <= i + |pad|
    requires i + |pad| < |s| ==> !IsWhite(s[i + |pad|])
    ensures Skip(s, x) == i + |pad|
    decreases i + |pad| - x
  {
    if x < i + |pad| {
      assert s[x] == pad[x - i];
      SkipOver(rules, s, i, x + 1, pad);
    }
  }

  lemma FlattenBegins(rules: Rules, t: Json, room: int)
    requires IsJson(rules, t, room)
    ensures |Flatten(t)| > 0 && StartsValue(Flatten(t)[0])
    ensures Flatten(t)[0] == OPEN_BRACE <==> t.Obj?
    ensures Flatten(t)[0] == OPEN_BRACKET <==> t.Arr?
    ensures Flatten(t)[0] == QUOTE <==> t.Str?
  {
    if t.Num? { NumberShape(t.number); }
  }

  lemma ValueBegins(rules: Rules, s: Text, l: nat, t: Json, room: int)
    requires IsJson(rules, t, room) && At(s, l, Flatten(t))
    ensures l < |s| && !IsWhite(s[l]) && s[l] != CLOSE_BRACKET && s[l] == Flatten(t)[0]
  {
    FlattenBegins(rules, t, room);
    hide Flatten;
    assert s[l] == Flatten(t)[0];
  }

  // ----- Members and items -----

  /** The positions of a member's parts, as the scanner meets them. */
  datatype MemberSpan = MemberSpan(key: nat, afterKey: nat, colon: nat, value: nat, end: nat, next: nat)

  ghost predicate Spans(rules: Rules, s: Text, i: nat, m: Members, p: MemberSpan)
    requires m.Member?
  {
    && i <= p.key == i + |m.pad| && p.key < p.afterKey <= p.colon < p.value < p.end <= p.next < |s|
    && (forall x: nat | i <= x <= p.key :: Skip(s, x) == p.key)
    && s[p.key] == QUOTE && StringEnd(s, p.key + 1, false) == Some(p.afterKey)
    && Skip(s, p.afterKey) == p.colon && s[p.colon] == COLON && Skip(s, p.colon + 1) == p.value
    && At(s, p.value, Flatten(m.value)) && p.end == p.value + |Flatten(m.value)| && Delimited(rules, s, p.end)
    && Skip(s, p.end) == p.next && s[p.next] == (if m.rest.Member? then COMMA else CLOSE_BRACE)
    && (m.rest.Member? ==> At(s, p.next + 1, MembersText(m.rest)))
    && i + |MembersText(m)| == p.next + 1 + (if m.rest.Member? then |MembersText(m.rest)| else 0)
  }

  lemma ParsedMember(rules: Rules, m: Members, room: int)
    requires rules != Native && m.Member? && AreMembers(rules, m, room)
    ensures IsPad(rules, m.pad) && ArePieces(Rfc8259, m.key) && IsPad(rules, m.gap) && IsPad(rules, m.lead)
    ensures IsPad(rules, m.trail) && IsPad(Native, m.trail)
    ensures IsJson(rules, m.value, room) && AreMembers(rules, m.rest, room) && (m.rest.NoMember? ==> m.rest.pad == [])
    ensures m.value < m && m.rest < m
  {
  }

  lemma MemberStands(rules: Rules, s: Text, i: nat, m: Members, room: int) returns (p: MemberSpan)
    requires rules != Native && m.Member? && AreMembers(rules, m, room) && At(s, i, MembersText(m))
    ensures Spans(rules, s, i, m, p) && UnitsFrom(s, p.key + 1) == PieceUnits(m.key)
  {
    hide *;
    ParsedMember(rules, m, room);
    var j, k, g, l, e, t := MemberParts(s, i, m);
    LiteralScanned(s, j, m.key);
    AtOne(s, g, COLON);
    ValueBegins(rules, s, l, m.value, room);
    TrailComplete(s, e, t, m);
    NotWhite();
    forall x: nat | i <= x <= j ensures Skip(s, x) == j { SkipOver(rules, s, i, x, m.pad); }
    SkipOver(rules, s, k, k, m.gap);
    SkipOver(rules, s, g + 1, g + 1, m.lead);
    SkipOver(rules, s, e, e, m.trail);
    DelimitedHere(rules, s, e, t, m.trail);
    AtSlice(s, l, Flatten(m.value));
    FlattenBegins(rules, m.value, room);
    p := MemberSpan(j, k, g, l, e, t);
    MemberJoins(rules, s, i, m, p);
  }

  lemma NotWhite()
    ensures !IsWhite(QUOTE) && !IsWhite(COLON) && !IsWhite(COMMA) && !IsWhite(CLOSE_BRACE) && !IsWhite(CLOSE_BRACKET)
    ensures COMMA != CLOSE_BRACE && COMMA != CLOSE_BRACKET
  {
  }

  lemma DelimitedHere(rules: Rules, s: Text, e: nat, t: nat, trail: Text)
    requires At(s, e, trail) && IsPad(rules, trail) && t == e + |trail| < |s|
    requires s[t] == COMMA || s[t] == CLOSE_BRACE || s[t] == CLOSE_BRACKET
    ensures Delimited(rules, s, e)
  {
    if trail != [] { assert s[e] == trail[0]; }
  }

  lemma MemberJoins(rules: Rules, s: Text, i: nat, m: Members, p: MemberSpan)
    requires m.Member? && p.key == i + |m.pad| && p.afterKey == p.key + |StringText(m.key)|
             && p.colon == p.afterKey + |m.gap|
    requires p.value == p.colon + 1 + |m.lead| && p.end == p.value + |Flatten(m.value)|
             && p.next == p.end + |m.trail| < |s|
    requires |Flatten(m.value)| > 0
    requires forall x: nat | i <= x <= p.key :: Skip(s, x) == p.key
    requires s[p.key] == QUOTE && StringEnd(s, p.key + 1, false) == Some(p.afterKey)
    requires Skip(s, p.afterKey) == p.colon && s[p.colon] == COLON && Skip(s, p.colon + 1) == p.value
    requires At(s, p.value, Flatten(m.value)) && Delimited(rules, s, p.end)
    requires Skip(s, p.end) == p.next && s[p.next] == (if m.rest.Member? then COMMA else CLOSE_BRACE)
    requires m.rest.Member? ==> At(s, p.next + 1, MembersText(m.rest))
    requires i + |MembersText(m)| == p.next + |Separator(m.rest.Member?) + MembersText(m.rest)|
    requires |Separator(m.rest.Member?) + MembersText(m.rest)|
             == (if m.rest.Member? then 1 + |MembersText(m.rest)| else 1)
    ensures Spans(rules, s, i, m, p)
  {
    hide Skip, StringEnd, At, Flatten, MembersText, Delimited, Separator;
  }

  datatype ItemSpan = ItemSpan(value: nat, end: nat, next: nat)

  ghost predicate ItemSpans(rules: Rules, s: Text, i: nat, x: Items, p: ItemSpan)
    requires x.Item?
  {
    && i <= p.value == i + |x.pad| && p.value < p.end <= p.next < |s|
    && (forall y: nat | i <= y <= p.value :: Skip(s, y) == p.value) && s[p.value] != CLOSE_BRACKET
    && At(s, p.value, Flatten(x.value)) && p.end == p.value + |Flatten(x.value)| && Delimited(rules, s, p.end)
    && Skip(s, p.end) == p.next && s[p.next] == (if x.rest.Item? then COMMA else CLOSE_BRACKET)
    && (x.rest.Item? ==> At(s, p.next + 1, ItemsText(x.rest)))
    && i + |ItemsText(x)| == p.next + 1 + (if x.rest.Item? then |ItemsText(x.rest)| else 0)
  }

  lemma ParsedItem(rules: Rules, x: Items, room: int)
    requires x.Item? && AreItems(rules, x, room)
    ensures IsPad(rules, x.pad) && IsPad(rules, x.trail) && IsPad(Native, x.trail)
    ensures IsJson(rules, x.value, room) && AreItems(rules, x.rest, room) && (x.rest.NoItem? ==> x.rest.pad == [])
    ensures x.value < x && x.rest < x
  {
  }

  lemma ItemStands(rules: Rules, s: Text, i: nat, x: Items, room: int) returns (p: ItemSpan)
    requires x.Item? && AreItems(rules, x, room) && At(s, i, ItemsText(x))
    ensures ItemSpans(rules, s, i, x, p)
  {
    hide *;
    ParsedItem(rules, x, room);
    var l, e, t := ItemParts(s, i, x);
    ValueBegins(rules, s, l, x.value, room);
    ItemTrailComplete(s, e, t, x);
    NotWhite();
    forall y: nat | i <= y <= l ensures Skip(s, y) == l { SkipOver(rules, s, i, y, x.pad); }
    SkipOver(rules, s, e, e, x.trail);
    DelimitedHere(rules, s, e, t, x.trail);
    FlattenBegins(rules, x.value, room);
    p := ItemSpan(l, e, t);
    ItemJoins(rules, s, i, x, p);
  }

  lemma ItemJoins(rules: Rules, s: Text, i: nat, x: Items, p: ItemSpan)
    requires x.Item? && p.value == i + |x.pad| && p.end == p.value + |Flatten(x.value)|
             && p.next == p.end + |x.trail| < |s|
    requires |Flatten(x.value)| > 0 && s[p.value] != CLOSE_BRACKET
    requires forall y: nat | i <= y <= p.value :: Skip(s, y) == p.value
    requires At(s, p.value, Flatten(x.value)) && Delimited(rules, s, p.end)
    requires Skip(s, p.end) == p.next && s[p.next] == (if x.rest.Item? then COMMA else CLOSE_BRACKET)
    requires x.rest.Item? ==> At(s, p.next + 1, ItemsText(x.rest))
    requires i + |ItemsText(x)| == p.next + |Separator(x.rest.Item?) + ItemsText(x.rest)|
    requires |Separator(x.rest.Item?) + ItemsText(x.rest)| == (if x.rest.Item? then 1 + |ItemsText(x.rest)| else 1)
    ensures ItemSpans(rules, s, i, x, p)
  {
    hide Skip, At, Flatten, ItemsText, Delimited, Separator;
  }

  /** An empty object or array: its closing bracket comes right after white space. */
  lemma EmptyStands(rules: Rules, s: Text, i: nat, pad: Text, close: int)
    requires At(s, i, pad + [close]) && IsPad(rules, pad) && !IsWhite(close)
    ensures Skip(s, i) == i + |pad| < |s| && s[i + |pad|] == close
  {
    AtConcat(s, i, pad, [close]);
    AtOne(s, i + |pad|, close);
    SkipOver(rules, s, i, i, pad);
  }
}
