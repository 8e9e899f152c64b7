/**
 * One JSON text on both sides of the pipe: the tree the native reader sees in the octets, and the tree the desktop
 * sees in their UTF-16 units.
 */
module UnitTrees {
  import opened Basics
  import opened Utf8
  import opened Utf16
  import opened JsonGrammar
  import opened JsonStrings
  import opened JsonValues
  import opened ScannedText
  import opened JsonScanner
  import opened DesktopText

  // ----- The relation -----

  /** Both literals stand for the same text, one decoded to octets, the other to units. */
  predicate SameString(ps: seq<Piece>, qs: seq<Piece>) {
    && ArePieces(Native, ps) && ArePieces(Rfc8259, qs) && Valid(PiecesValue(ps))
    && PieceUnits(qs) == UnitsOfText(PiecesValue(ps))
  }

  /** u is t for the desktop: the same shape, spaces, numbers and words, and strings that stand for the same text. */
  predicate Mirrors(t: Json, u: Json)
    decreases t, 0
  {
    match t
    case Str(pieces) => u.Str? && SameString(pieces, u.pieces)
    case Obj(members) => u.Obj? && MembersMirror(members, u.members)
    case Arr(items) => u.Arr? && ItemsMirror(items, u.items)
    case _ => u == t
  }

  predicate MembersMirror(ms: Members, us: Members)
    decreases ms, 0
  {
    if ms.NoMember? then us == ms
    else
      && us.Member? && us.pad == ms.pad && SameString(ms.key, us.key) && us.gap == ms.gap && us.lead == ms.lead
      && Mirrors(ms.value, us.value) && us.trail == ms.trail && MembersMirror(ms.rest, us.rest)
  }

  predicate ItemsMirror(xs: Items, us: Items)
    decreases xs, 0
  {
    if xs.NoItem? then us == xs
    else
      && us.Item? && us.pad == xs.pad && Mirrors(xs.value, us.value) && us.trail == xs.trail
      && ItemsMirror(xs.rest, us.rest)
  }

  // ----- Strings -----

  /** Each surrogate escape of a pair is a piece of its own on the desktop. */
  function DesktopPieces(p: Piece): seq<Piece> {
    if p.Pair? then [Hex(p.high), Hex(p.low)] else [p]
  }

  /** The raw octets at the start of a literal, as many as are no ASCII. */
  lemma {:induction false} RawPrefix(ps: seq<Piece>, n: nat)
    requires ArePieces(Native, ps) && n <= |PiecesText(ps)| && forall k | 0 <= k < n :: PiecesText(ps)[k] >= 0x80
    ensures n <= |ps| && PiecesText(ps) == PiecesText(ps)[..n] + PiecesText(ps[n..])
    ensures PiecesValue(ps) == PiecesText(ps)[..n] + PiecesValue(ps[n..])
    decreases n
  {
    hide *;
    if n == 0 {
      assert ps[0..] == ps;
    } else {
      FirstRaw(ps);
      var t, rest := PiecesText(ps), PiecesText(ps[1..]);
      assert forall k {:trigger rest[k]} | 0 <= k < n - 1 :: rest[k] == t[k + 1];
      RawPrefix(ps[1..], n - 1);
      assert ps[1..][n - 1..] == ps[n..];
      ConsPrefix(t, rest, PiecesText(ps[n..]), n);
      SuffixPieces(ps, n);
      assert [t[0]] + (rest[..n - 1] + PiecesValue(ps[n..])) == t[..n] + PiecesValue(ps[n..]);
    }
  }

  lemma ConsPrefix(t: Text, rest: Text, tail: Text, n: nat)
    requires 1 <= n <= |t| && t == [t[0]] + rest && rest == rest[..n - 1] + tail
    ensures t[..n] == [t[0]] + rest[..n - 1] && t == t[..n] + tail
  {
  }

  lemma FirstRaw(ps: seq<Piece>)
    requires ArePieces(Native, ps) && PiecesText(ps) != [] && PiecesText(ps)[0] >= 0x80
    ensures ps != [] && PiecesText(ps) == [PiecesText(ps)[0]] + PiecesText(ps[1..])
    ensures ArePieces(Native, ps[1..]) && PiecesValue(ps) == [PiecesText(ps)[0]] + PiecesValue(ps[1..])
  {
    assert PieceText(ps[0])[0] == PiecesText(ps)[0];
    assert ps[0].Raw?;
  }

  /** Units of a code point outside ASCII are raw pieces on the desktop. */
  function RawPieces(units: Text): seq<Piece> {
    seq(|units|, k requires 0 <= k < |units| => Raw(units[k]))
  }

  lemma {:induction false} RawPiecesAre(units: Text)
    requires forall k | 0 <= k < |units| :: units[k] >= 0x80
    ensures var qs := RawPieces(units); ArePieces(Rfc8259, qs) && PiecesText(qs) == units && PieceUnits(qs) == units
  {
    if units != [] {
      RawPiecesAre(units[1..]);
      assert RawPieces(units)[1..] == RawPieces(units[1..]);
      assert units == [units[0]] + units[1..];
    }
  }

  lemma {:induction false} PieceUnitsConcat(a: seq<Piece>, b: seq<Piece>)
    requires ArePieces(Rfc8259, a) && ArePieces(Rfc8259, b)
    ensures ArePieces(Rfc8259, a + b) && PieceUnits(a + b) == PieceUnits(a) + PieceUnits(b)
  {
    hide IsPiece, PieceUnit;
    if a == [] {
      assert a + b == b;
    } else {
      assert (a + b)[1..] == a[1..] + b;
      PieceUnitsConcat(a[1..], b);
    }
  }

  /** An ASCII piece reads the same on both sides. */
  lemma AsciiPieceMirrors(p: Piece)
    requires IsPiece(Native, p) && (p.Raw? ==> p.c < 0x80)
    ensures var qs := DesktopPieces(p);
            && ArePieces(Rfc8259, qs) && PiecesText(qs) == PieceText(p)
            && PieceUnits(qs) == UnitsOfScalar(PieceScalar(p))
            && PieceValue(p) == EncodeScalar(PieceScalar(p)) && IsAscii(PieceText(p))
  {
    PieceIsAscii(p);
    hide HexValue, EncodeScalar;
    if p.Pair? {
      TwoPieces(Hex(p.high), Hex(p.low));
      SurrogatesOf(HexValue(p.high).value, HexValue(p.low).value);
    } else if p.Raw? {
      assert EncodeScalar(p.c) == [p.c];
    }
  }

  lemma TwoPieces(p: Piece, q: Piece)
    ensures PiecesText([p, q]) == PieceText(p) + PieceText(q)
    ensures IsPiece(Rfc8259, p) && IsPiece(Rfc8259, q) ==> PieceUnits([p, q]) == [PieceUnit(p), PieceUnit(q)]
  {
    hide PieceText, PieceUnit, IsPiece;
    assert [p, q][1..] == [q] && [q][1..] == [];
    assert PiecesText([q]) == PieceText(q) + [];
    if IsPiece(Rfc8259, p) && IsPiece(Rfc8259, q) { assert PieceUnits([q]) == [PieceUnit(q)] + []; }
  }

  lemma SurrogatesOf(high: int, low: int)
    requires IsHighSurrogate(high) && IsLowSurrogate(low)
    ensures IsScalar(PairScalar(high, low)) && UnitsOfScalar(PairScalar(high, low)) == [high, low]
  {
    assert ((high - 0xD800) * 1024 + (low - 0xDC00)) / 1024 == high - 0xD800;
  }

  lemma NotEmpty(ps: seq<Piece>)
    requires ps != []
    ensures PiecesText(ps) != []
  {
  }

  lemma FirstAscii(ps: seq<Piece>)
    requires ArePieces(Native, ps) && ps != [] && PiecesText(ps) != [] && PiecesText(ps)[0] < 0x80
    ensures IsPiece(Native, ps[0]) && (ps[0].Raw? ==> ps[0].c < 0x80) && ArePieces(Native, ps[1..])
    ensures PiecesText(ps) == PieceText(ps[0]) + PiecesText(ps[1..])
    ensures PiecesValue(ps) == PieceValue(ps[0]) + PiecesValue(ps[1..])
  {
    assert PieceText(ps[0])[0] == PiecesText(ps)[0];
  }

  lemma FirstCodePoint(t: Text) returns (n: nat, v: Scalar)
    requires Valid(t) && t != [] && t[0] >= 0x80
    ensures 0 < n <= |t| && t[..n] == EncodeScalar(v) && v >= 0x80 && Valid(t[n..]) && t == t[..n] + t[n..]
    ensures forall k | 0 <= k < n :: t[k] >= 0x80
  {
    MultiOctet(t, 0);
    n, v := DecodeOne(t, 0).width, DecodeOne(t, 0).value;
    hide DecodeOne, EncodeScalar;
    Drop(t, n);
  }

  lemma CodePointMirrors(v: Scalar)
    requires v >= 0x80
    ensures Valid(EncodeScalar(v)) && UnitsOfText(EncodeScalar(v)) == UnitsOfScalar(v)
    ensures var qs := RawPieces(UnitsOfScalar(v));
            ArePieces(Rfc8259, qs) && PiecesText(qs) == UnitsOfScalar(v) && PieceUnits(qs) == UnitsOfScalar(v)
  {
    RawPiecesAre(UnitsOfScalar(v));
    hide EncodeScalar, UnitsOfScalar;
    OneCodePoint(v);
  }

  lemma OneCodePoint(v: Scalar)
    ensures Valid(EncodeScalar(v)) && UnitsOfText(EncodeScalar(v)) == UnitsOfScalar(v)
  {
    hide EncodeScalar, UnitsOfScalar, UnitsOfText;
    assert EncodeAll([v]) == EncodeScalar(v) + EncodeAll([]) == EncodeScalar(v);
    assert ToUtf16([v]) == UnitsOfScalar(v) + ToUtf16([]) == UnitsOfScalar(v);
    UnitsAreUtf16([v]);
  }

  /** The code point a literal starts with, on both sides. */
  lemma HeadMirrors(ps: seq<Piece>) returns (n: nat, v: Scalar, head: Text, qs: seq<Piece>)
    requires ArePieces(Native, ps) && ps != [] && Valid(PiecesText(ps))
    ensures 0 < n <= |ps| && Valid(head) && Valid(PiecesText(ps[n..])) && PiecesText(ps) == head + PiecesText(ps[n..])
    ensures ArePieces(Native, ps[n..]) && PiecesValue(ps) == EncodeScalar(v) + PiecesValue(ps[n..])
    ensures ArePieces(Rfc8259, qs) && PiecesText(qs) == UnitsOfText(head) && PieceUnits(qs) == UnitsOfScalar(v)
  {
    hide *;
    var t := PiecesText(ps);
    NotEmpty(ps);
    if t[0] < 0x80 {
      FirstAscii(ps);
      AsciiPieceMirrors(ps[0]);
      n, v, head, qs := 1, PieceScalar(ps[0]), PieceText(ps[0]), DesktopPieces(ps[0]);
      PeelAscii(head, PiecesText(ps[1..]));
      AsciiUnits(head);
    } else {
      n, v := FirstCodePoint(t);
      head := t[..n];
      RawPrefix(ps, n);
      SuffixPieces(ps, n);
      assert t[n..] == PiecesText(ps[n..]);
      qs := RawPieces(UnitsOfScalar(v));
      CodePointMirrors(v);
    }
  }

  lemma SuffixPieces(ps: seq<Piece>, n: nat)
    requires ArePieces(Native, ps) && n <= |ps|
    ensures ArePieces(Native, ps[n..])
  {
  }

  /** Every literal in well-formed octets has a counterpart on the desktop, in the very units of its octets. */
  lemma {:induction false} StringMirrors(ps: seq<Piece>) returns (qs: seq<Piece>)
    requires ArePieces(Native, ps) && Valid(PiecesText(ps))
    ensures SameString(ps, qs) && PiecesText(qs) == UnitsOfText(PiecesText(ps))
    decreases |ps|
  {
    if ps == [] {
      qs := [];
      AsciiUnits([]);
    } else {
      hide *;
      var n, v, head, first := HeadMirrors(ps);
      var rest := StringMirrors(ps[n..]);
      qs := first + rest;
      SameParts(ps[n..], rest);
      PieceUnitsConcat(first, rest);
      PiecesConcat(first, rest);
      UnitsConcat(head, PiecesText(ps[n..]));
      OneCodePoint(v);
      UnitsConcat(EncodeScalar(v), PiecesValue(ps[n..]));
      SameJoins(ps, qs);
    }
  }

  lemma SameParts(ps: seq<Piece>, qs: seq<Piece>)
    requires SameString(ps, qs)
    ensures ArePieces(Native, ps) && ArePieces(Rfc8259, qs) && Valid(PiecesValue(ps))
    ensures PieceUnits(qs) == UnitsOfText(PiecesValue(ps))
  {
  }

  lemma SameJoins(ps: seq<Piece>, qs: seq<Piece>)
    requires ArePieces(Native, ps) && ArePieces(Rfc8259, qs) && Valid(PiecesValue(ps))
    requires PieceUnits(qs) == UnitsOfText(PiecesValue(ps))
    ensures SameString(ps, qs)
  {
  }

  lemma LiteralMirrors(ps: seq<Piece>) returns (qs: seq<Piece>)
    requires ArePieces(Native, ps) && Valid(StringText(ps))
    ensures SameString(ps, qs) && StringText(qs) == UnitsOfText(StringText(ps))
  {
    assert StringText(ps) == [QUOTE] + (PiecesText(ps) + [QUOTE]);
    hide PiecesText, Valid, UnitsOfText, ArePieces, SameString;
    PeelAscii([QUOTE], PiecesText(ps) + [QUOTE]);
    SplitBeforeAscii(PiecesText(ps), [QUOTE]);
    AsciiUnits([QUOTE]);
    qs := StringMirrors(ps);
    assert StringText(qs) == [QUOTE] + (PiecesText(qs) + [QUOTE]);
  }

  // ----- Whole texts -----

  lemma PadIsAscii(rules: Rules, pad: Text)
    requires IsPad(rules, pad)
    ensures IsAscii(pad) && IsPad(Lenient, pad)
  {
  }

  lemma NumberIsAscii(n: Number)
    requires IsNumber(n)
    ensures IsAscii(NumberText(n))
  {
    var sign, fraction := SignText(n.negative), FractionText(n.frac);
    assert IsAscii(sign) && IsAscii(n.whole) && IsAscii(fraction) && IsAscii(n.scale.mark) && IsAscii(n.scale.digits);
    hide SignText, FractionText, IsNumber;
    AsciiConcat(n.scale.mark, n.scale.digits);
    AsciiConcat(fraction, ScaleText(n.scale));
    AsciiConcat(n.whole, TailText(n.frac, n.scale));
    AsciiConcat(sign, n.whole + TailText(n.frac, n.scale));
  }

  lemma AsciiConcat(a: Text, b: Text)
    requires IsAscii(a) && IsAscii(b)
    ensures IsAscii(a + b)
  {
  }

  /** An ASCII text between two others, of which the second starts in ASCII. */
  lemma Between(x: Text, y: Text, z: Text)
    requires IsAscii(y) && Valid(x + (y + z)) && (y != [] || (z != [] && 0 <= z[0] < 0x80))
    ensures Valid(x) && Valid(z) && UnitsOfText(x + (y + z)) == UnitsOfText(x) + (y + UnitsOfText(z))
  {
    assert (y + z)[0] == if y != [] then y[0] else z[0];
    hide Valid, UnitsOfText, IsAscii;
    SplitBeforeAscii(x, y + z);
    PeelAscii(y, z);
  }

  /** A member's text with other texts in place of its key, its value and what follows. */
  function MemberText(m: Members, key: Text, value: Text, rest: Text): Text
    requires m.Member?
  {
    m.pad + (key + (m.gap + ([COLON] + (m.lead + (value + (m.trail + (Separator(m.rest.Member?) + rest)))))))
  }

  lemma MemberTextSplits(m: Members, room: int)
    requires m.Member? && AreMembers(Native, m, room) && Valid(MembersText(m))
    ensures Valid(StringText(m.key)) && Valid(Flatten(m.value)) && Valid(MembersText(m.rest))
    ensures UnitsOfText(MembersText(m)) == MemberText(
              m, UnitsOfText(StringText(m.key)), UnitsOfText(Flatten(m.value)), UnitsOfText(MembersText(m.rest)))
  {
    MembersStartInAscii(m.rest, room);
    MemberShapes(m, room);
    PadsAreAscii(m);
    MemberTextJoins(m, StringText(m.key), Flatten(m.value), MembersText(m.rest));
    assert MembersText(m) == MemberText(m, StringText(m.key), Flatten(m.value), MembersText(m.rest));
    var between, after := m.gap + [COLON] + m.lead, m.trail + Separator(m.rest.Member?);
    hide *;
    var key, value, rest := StringText(m.key), Flatten(m.value), MembersText(m.rest);
    PeelAscii(m.pad, key + (between + (value + (after + rest))));
    Between(key, between, value + (after + rest));
    Between(value, after, rest);
    MemberTextJoins(m, UnitsOfText(key), UnitsOfText(value), UnitsOfText(rest));
  }

  lemma PadsAreAscii(m: Members)
    requires m.Member? && IsPad(Native, m.pad) && IsPad(Native, m.gap) && IsPad(Native, m.lead)
             && IsPad(Native, m.trail)
    ensures IsAscii(m.pad) && IsAscii(m.gap + [COLON] + m.lead) && IsAscii(m.trail + Separator(m.rest.Member?))
    ensures m.gap + [COLON] + m.lead != []
  {
  }

  lemma MemberTextJoins(m: Members, key: Text, value: Text, rest: Text)
    requires m.Member?
    ensures MemberText(m, key, value, rest)
         == m.pad + (key + ((m.gap + [COLON] + m.lead) + (value + ((m.trail + Separator(m.rest.Member?)) + rest))))
  {
    var tail := value + (m.trail + (Separator(m.rest.Member?) + rest));
    assert tail == value + ((m.trail + Separator(m.rest.Member?)) + rest);
    assert m.gap + ([COLON] + (m.lead + tail)) == (m.gap + [COLON] + m.lead) + tail;
  }

  lemma MembersStartInAscii(ms: Members, room: int)
    requires AreMembers(Native, ms, room)
    ensures MembersText(ms) != [] && 0 <= MembersText(ms)[0] < 0x80
  {
    if ms.pad != [] { assert MembersText(ms)[0] == ms.pad[0]; }
  }

  lemma ItemTextSplits(x: Items, room: int)
    requires x.Item? && AreItems(Native, x, room) && Valid(ItemsText(x))
    ensures Valid(Flatten(x.value)) && Valid(ItemsText(x.rest))
    ensures UnitsOfText(ItemsText(x))
         == x.pad + (UnitsOfText(Flatten(x.value))
           + (x.trail + (Separator(x.rest.Item?) + UnitsOfText(ItemsText(x.rest)))))
  {
    ItemsStartInAscii(x.rest, room);
    ItemShapes(x, room);
    ItemTextJoins(x, Flatten(x.value), ItemsText(x.rest));
    assert ItemsText(x) == x.pad + (Flatten(x.value) + (x.trail + (Separator(x.rest.Item?) + ItemsText(x.rest))));
    hide *;
    var after := x.trail + Separator(x.rest.Item?);
    var value, rest := Flatten(x.value), ItemsText(x.rest);
    PeelAscii(x.pad, value + (after + rest));
    Between(value, after, rest);
    ItemTextJoins(x, UnitsOfText(value), UnitsOfText(rest));
  }

  lemma ItemTextJoins(x: Items, value: Text, rest: Text)
    requires x.Item? && IsPad(Native, x.pad) && IsPad(Native, x.trail)
    ensures IsAscii(x.pad) && IsAscii(x.trail + Separator(x.rest.Item?))
            && (x.rest.Item? ==> x.trail + Separator(true) != [])
    ensures x.pad + (value + (x.trail + (Separator(x.rest.Item?) + rest)))
         == x.pad + (value + ((x.trail + Separator(x.rest.Item?)) + rest))
  {
    assert x.trail + (Separator(x.rest.Item?) + rest) == (x.trail + Separator(x.rest.Item?)) + rest;
  }

  lemma ItemsStartInAscii(xs: Items, room: int)
    requires AreItems(Native, xs, room)
    ensures ItemsText(xs) != [] && (xs.NoItem? ==> 0 <= ItemsText(xs)[0] < 0x80)
  {
    if xs.NoItem? {
      if xs.pad != [] { assert ItemsText(xs)[0] == xs.pad[0]; }
    } else {
      FlattenStarts(xs.value, room);
    }
  }

  // ----- The counterpart of a tree -----

  /** Every native value in well-formed octets has a counterpart in their units. */
  lemma {:induction false} ValueMirrors(t: Json, room: int) returns (u: Json)
    requires IsJson(Native, t, room) && Valid(Flatten(t))
    ensures Mirrors(t, u) && IsJson(Lenient, u, room) && Flatten(u) == UnitsOfText(Flatten(t))
    decreases t, 0
  {
    match t {
      case Str(pieces) =>
        hide SameString, StringText, UnitsOfText, Valid, ArePieces;
        var qs := LiteralMirrors(pieces);
        u := Str(qs);
        SameIsLenient(pieces, qs);
      case Num(number) =>
        hide NumberText, UnitsOfText, Valid, IsNumber;
        NumberIsAscii(number);
        AsciiUnits(NumberText(number));
        u := t;
      case Lit(word) =>
        hide UnitsOfText, Valid;
        AsciiUnits(WordText(word));
        u := t;
      case Obj(members) =>
        hide MembersText, UnitsOfText, Valid, AreMembers, MembersMirror;
        PeelAscii([OPEN_BRACE], MembersText(members));
        var us := MembersMirrors(members, room - 1);
        u := Obj(us);
      case Arr(items) =>
        hide ItemsText, UnitsOfText, Valid, AreItems, ItemsMirror;
        PeelAscii([OPEN_BRACKET], ItemsText(items));
        var us := ItemsMirrors(items, room - 1);
        u := Arr(us);
    }
  }

  lemma SameIsLenient(ps: seq<Piece>, qs: seq<Piece>)
    requires SameString(ps, qs)
    ensures ArePieces(Lenient, qs)
  {
  }

  lemma {:induction false} MembersMirrors(ms: Members, room: int) returns (us: Members)
    requires AreMembers(Native, ms, room) && Valid(MembersText(ms))
    ensures MembersMirror(ms, us) && AreMembers(Lenient, us, room) && MembersText(us) == UnitsOfText(MembersText(ms))
    ensures us.Member? <==> ms.Member?
    decreases ms, 0
  {
    hide *;
    if ms.NoMember? {
      NoMemberMirrors(ms, room);
      us := ms;
    } else {
      MemberShapes(ms, room);
      MemberTextSplits(ms, room);
      var key := LiteralMirrors(ms.key);
      var value := ValueMirrors(ms.value, room);
      var rest := MembersMirrors(ms.rest, room);
      if ms.rest.NoMember? { NoMemberMirrors(ms.rest, room); }
      us := MirrorJoins(ms, key, value, rest, room);
    }
  }

  lemma NoMemberMirrors(ms: Members, room: int)
    requires ms.NoMember? && AreMembers(Native, ms, room) && Valid(MembersText(ms))
    ensures MembersMirror(ms, ms) && AreMembers(Lenient, ms, room) && MembersText(ms) == UnitsOfText(MembersText(ms))
    ensures forall us | MembersMirror(ms, us) :: us == ms
  {
    hide UnitsOfText, Valid;
    assert IsAscii(MembersText(ms));
    AsciiUnits(MembersText(ms));
  }

  lemma MirrorJoins(m: Members, key: seq<Piece>, value: Json, rest: Members, room: int) returns (us: Members)
    requires m.Member? && Valid(StringText(m.key)) && Valid(Flatten(m.value)) && Valid(MembersText(m.rest))
    requires SameString(m.key, key) && StringText(key) == UnitsOfText(StringText(m.key))
    requires Mirrors(m.value, value) && IsJson(Lenient, value, room) && Flatten(value) == UnitsOfText(Flatten(m.value))
    requires MembersMirror(m.rest, rest) && AreMembers(Lenient, rest, room)
             && MembersText(rest) == UnitsOfText(MembersText(m.rest))
    requires IsPad(Native, m.pad) && IsPad(Native, m.gap) && IsPad(Native, m.lead) && IsPad(Native, m.trail)
    requires (rest.Member? <==> m.rest.Member?) && (m.rest.NoMember? ==> m.rest.pad == [] && rest == m.rest)
    requires Valid(MembersText(m)) && UnitsOfText(MembersText(m))
             == MemberText(m, StringText(key), Flatten(value), MembersText(rest))
    ensures us == Member(m.pad, key, m.gap, m.lead, value, m.trail, rest)
    ensures MembersMirror(m, us) && AreMembers(Lenient, us, room) && MembersText(us) == UnitsOfText(MembersText(m))
  {
    SameIsLenient(m.key, key);
    PadIsAscii(Native, m.pad);
    PadIsAscii(Native, m.gap);
    PadIsAscii(Native, m.lead);
    PadIsAscii(Native, m.trail);
    us := Member(m.pad, key, m.gap, m.lead, value, m.trail, rest);
    hide SameString, ArePieces, IsPad, IsJson, StringText, Flatten, UnitsOfText, Valid, Mirrors, Separator;
  }

  lemma {:induction false} ItemsMirrors(xs: Items, room: int) returns (us: Items)
    requires AreItems(Native, xs, room) && Valid(ItemsText(xs))
    ensures ItemsMirror(xs, us) && AreItems(Lenient, us, room) && ItemsText(us) == UnitsOfText(ItemsText(xs))
    ensures us.Item? <==> xs.Item?
    decreases xs, 0
  {
    hide *;
    if xs.NoItem? {
      NoItemMirrors(xs, room);
      us := xs;
    } else {
      ItemShapes(xs, room);
      ItemTextSplits(xs, room);
      var value := ValueMirrors(xs.value, room);
      var rest := ItemsMirrors(xs.rest, room);
      if xs.rest.NoItem? { NoItemMirrors(xs.rest, room); }
      us := ItemMirrorJoins(xs, value, rest, room);
    }
  }

  lemma NoItemMirrors(xs: Items, room: int)
    requires xs.NoItem? && AreItems(Native, xs, room) && Valid(ItemsText(xs))
    ensures ItemsMirror(xs, xs) && AreItems(Lenient, xs, room) && ItemsText(xs) == UnitsOfText(ItemsText(xs))
    ensures forall us | ItemsMirror(xs, us) :: us == xs
  {
    hide UnitsOfText, Valid;
    assert IsAscii(ItemsText(xs));
    AsciiUnits(ItemsText(xs));
  }

  lemma ItemMirrorJoins(x: Items, value: Json, rest: Items, room: int) returns (us: Items)
    requires x.Item? && Valid(Flatten(x.value)) && Valid(ItemsText(x.rest))
    requires Mirrors(x.value, value) && IsJson(Lenient, value, room) && Flatten(value) == UnitsOfText(Flatten(x.value))
    requires ItemsMirror(x.rest, rest) && AreItems(Lenient, rest, room)
             && ItemsText(rest) == UnitsOfText(ItemsText(x.rest))
    requires IsPad(Native, x.pad) && IsPad(Native, x.trail)
    requires (rest.Item? <==> x.rest.Item?) && (x.rest.NoItem? ==> x.rest.pad == [] && rest == x.rest)
    requires Valid(ItemsText(x))
    requires UnitsOfText(ItemsText(x)) == x.pad + (Flatten(value)
               + (x.trail + (Separator(x.rest.Item?) + ItemsText(rest))))
    ensures us == Item(x.pad, value, x.trail, rest)
    ensures ItemsMirror(x, us) && AreItems(Lenient, us, room) && ItemsText(us) == UnitsOfText(ItemsText(x))
  {
    PadIsAscii(Native, x.pad);
    PadIsAscii(Native, x.trail);
    us := Item(x.pad, value, x.trail, rest);
    hide IsPad, IsJson, Flatten, UnitsOfText, Valid, Mirrors, Separator;
  }
}
