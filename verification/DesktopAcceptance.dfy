/**
 * What the desktop accepts of what the native host sends: TextDecoder, JSON.parse and the complexity scan of
 * apps/desktop/src/main/native-host/frame-codec.ts on the texts and envelopes of envelope.cpp.
 */
module DesktopAcceptance {
  import opened Basics
  import opened Utf8
  import opened JsonGrammar
  import opened JsonStrings
  import opened JsonValues
  import opened JsonValueReader
  import opened ScannedText
  import opened JsonScanner
  import opened DesktopText
  import opened UnitTrees
  import opened Unambiguous
  import DesktopFrames

  // ----- What a tree has to be -----

  /** White space is that of RFC 8259 everywhere outside strings. */
  predicate RfcSpaced(t: Json)
    decreases t, 0
  {
    match t
    case Obj(ms) => MembersRfcSpaced(ms)
    case Arr(xs) => ItemsRfcSpaced(xs)
    case _ => true
  }

  predicate MembersRfcSpaced(ms: Members)
    decreases ms, 0
  {
    && IsPad(Rfc8259, ms.pad)
    && (ms.Member? ==>
          && IsPad(Rfc8259, ms.gap) && IsPad(Rfc8259, ms.lead) && RfcSpaced(ms.value) && IsPad(Rfc8259, ms.trail)
          && MembersRfcSpaced(ms.rest))
  }

  predicate ItemsRfcSpaced(xs: Items)
    decreases xs, 0
  {
    && IsPad(Rfc8259, xs.pad)
    && (xs.Item? ==> RfcSpaced(xs.value) && IsPad(Rfc8259, xs.trail) && ItemsRfcSpaced(xs.rest))
  }

  function DecodedKeys(ms: Members, room: int): seq<Text>
    requires AreMembers(Native, ms, room)
  {
    if ms.NoMember? then [] else [PiecesValue(ms.key)] + DecodedKeys(ms.rest, room)
  }

  /** No object at any level has two equal decoded keys; the native reader asks for this at the top level only. */
  predicate UniqueThroughout(t: Json, room: int)
    requires IsJson(Native, t, room)
    decreases t, 0
  {
    match t
    case Obj(ms) => NoRepeats(DecodedKeys(ms, room - 1)) && MembersUnique(ms, room - 1)
    case Arr(xs) => ItemsUnique(xs, room - 1)
    case _ => true
  }

  predicate MembersUnique(ms: Members, room: int)
    requires AreMembers(Native, ms, room)
    decreases ms, 0
  {
    ms.NoMember? || (UniqueThroughout(ms.value, room) && MembersUnique(ms.rest, room))
  }

  predicate ItemsUnique(xs: Items, room: int)
    requires AreItems(Native, xs, room)
    decreases xs, 0
  {
    xs.NoItem? || (UniqueThroughout(xs.value, room) && ItemsUnique(xs.rest, room))
  }

  /** A native value the desktop takes, when it has room for so many values and levels. */
  predicate Suits(t: Json, room: int, nodes: int, depth: int)
    requires IsJson(Native, t, room)
  {
    RfcSpaced(t) && Nodes(t) <= nodes && Depth(t) <= depth && UniqueThroughout(t, room)
  }

  // ----- A tree and its counterpart -----

  lemma {:induction false} SameMeasures(t: Json, u: Json)
    requires Mirrors(t, u)
    ensures Nodes(u) == Nodes(t) && Depth(u) == Depth(t)
    decreases t, 0
  {
    hide SameString;
    match t {
      case Obj(ms) => MembersMeasure(ms, u.members);
      case Arr(xs) => ItemsMeasure(xs, u.items);
      case _ =>
    }
  }

  lemma {:induction false} MembersMeasure(ms: Members, us: Members)
    requires MembersMirror(ms, us)
    ensures MemberNodes(us) == MemberNodes(ms) && MemberDepth(us) == MemberDepth(ms)
    decreases ms, 0
  {
    hide SameString, Mirrors, Nodes, Depth;
    if ms.Member? {
      SameMeasures(ms.value, us.value);
      MembersMeasure(ms.rest, us.rest);
    }
  }

  lemma {:induction false} ItemsMeasure(xs: Items, us: Items)
    requires ItemsMirror(xs, us)
    ensures ItemNodes(us) == ItemNodes(xs) && ItemDepth(us) == ItemDepth(xs)
    decreases xs, 0
  {
    hide Mirrors, Nodes, Depth;
    if xs.Item? {
      SameMeasures(xs.value, us.value);
      ItemsMeasure(xs.rest, us.rest);
    }
  }

  /** The counterpart obeys RFC 8259 exactly when the tree has no other white space. */
  lemma {:induction false} SameSpaces(t: Json, u: Json, room: int)
    requires Mirrors(t, u) && IsJson(Lenient, u, room)
    ensures IsJson(Rfc8259, u, room) <==> RfcSpaced(t)
    decreases t, 0
  {
    hide SameString, IsNumber;
    match t {
      case Obj(ms) => MembersSpaces(ms, u.members, room - 1);
      case Arr(xs) => ItemsSpaces(xs, u.items, room - 1);
      case Str(_) => assert forall p | IsPiece(Lenient, p) :: IsPiece(Rfc8259, p);
      case _ =>
    }
  }

  lemma {:induction false} MembersSpaces(ms: Members, us: Members, room: int)
    requires MembersMirror(ms, us) && AreMembers(Lenient, us, room)
    ensures AreMembers(Rfc8259, us, room) <==> MembersRfcSpaced(ms)
    decreases ms, 0
  {
    if ms.Member? {
      assert SameString(ms.key, us.key) ==> ArePieces(Rfc8259, us.key);
      hide SameString, Mirrors, IsPad, ArePieces, IsJson, RfcSpaced;
      SameSpaces(ms.value, us.value, room);
      MembersSpaces(ms.rest, us.rest, room);
    }
  }

  lemma {:induction false} ItemsSpaces(xs: Items, us: Items, room: int)
    requires ItemsMirror(xs, us) && AreItems(Lenient, us, room)
    ensures AreItems(Rfc8259, us, room) <==> ItemsRfcSpaced(xs)
    decreases xs, 0
  {
    hide Mirrors, IsPad, IsJson, RfcSpaced;
    if xs.Item? {
      SameSpaces(xs.value, us.value, room);
      ItemsSpaces(xs.rest, us.rest, room);
    }
  }

  /** Keys decode to different units exactly when they decode to different octets. */
  lemma {:induction false} SameKeys(ms: Members, us: Members, room: int, uRoom: int)
    requires MembersMirror(ms, us) && AreMembers(Native, ms, room) && AreMembers(Rfc8259, us, uRoom)
    ensures var ks, vs := DecodedKeys(ms, room), ObjectKeys(us, uRoom);
            |ks| == |vs| && forall i | 0 <= i < |ks| :: Valid(ks[i]) && vs[i] == UnitsOfText(ks[i])
    decreases ms
  {
    hide PiecesValue, PieceUnits, UnitsOfText, Valid, ArePieces, IsPad, IsJson, Mirrors;
    if ms.Member? { SameKeys(ms.rest, us.rest, room, uRoom); }
  }

  lemma SameRepeats(ks: seq<Text>, vs: seq<Text>)
    requires |ks| == |vs| && forall i | 0 <= i < |ks| :: Valid(ks[i]) && vs[i] == UnitsOfText(ks[i])
    ensures NoRepeats(vs) <==> NoRepeats(ks)
  {
    hide UnitsOfText, Valid;
    forall i, j | 0 <= i < j < |ks| && vs[i] == vs[j] ensures ks[i] == ks[j] { UnitsDetermine(ks[i], ks[j]); }
  }

  lemma {:induction false} SameUniqueness(t: Json, room: int, u: Json, uRoom: int)
    requires Mirrors(t, u) && IsJson(Native, t, room) && IsJson(Rfc8259, u, uRoom)
    ensures UniqueKeys(u, uRoom) <==> UniqueThroughout(t, room)
    decreases t, 0
  {
    hide SameString, IsNumber, NoRepeats, DecodedKeys, ObjectKeys;
    match t {
      case Obj(ms) =>
        MembersUniqueness(ms, room - 1, u.members, uRoom - 1);
        SameKeys(ms, u.members, room - 1, uRoom - 1);
        SameRepeats(DecodedKeys(ms, room - 1), ObjectKeys(u.members, uRoom - 1));
      case Arr(xs) => ItemsUniqueness(xs, room - 1, u.items, uRoom - 1);
      case _ =>
    }
  }

  lemma {:induction false} MembersUniqueness(ms: Members, room: int, us: Members, uRoom: int)
    requires MembersMirror(ms, us) && AreMembers(Native, ms, room) && AreMembers(Rfc8259, us, uRoom)
    ensures UniqueMembers(us, uRoom) <==> MembersUnique(ms, room)
    decreases ms, 0
  {
    hide SameString, Mirrors, IsPad, ArePieces, IsJson, UniqueKeys, UniqueThroughout;
    if ms.Member? {
      SameUniqueness(ms.value, room, us.value, uRoom);
      MembersUniqueness(ms.rest, room, us.rest, uRoom);
    }
  }

  lemma {:induction false} ItemsUniqueness(xs: Items, room: int, us: Items, uRoom: int)
    requires ItemsMirror(xs, us) && AreItems(Native, xs, room) && AreItems(Rfc8259, us, uRoom)
    ensures UniqueItems(us, uRoom) <==> ItemsUnique(xs, room)
    decreases xs, 0
  {
    hide Mirrors, IsPad, IsJson, UniqueKeys, UniqueThroughout;
    if xs.Item? {
      SameUniqueness(xs.value, room, us.value, uRoom);
      ItemsUniqueness(xs.rest, room, us.rest, uRoom);
    }
  }

  // ----- Acceptance -----

  /** A document the scan lets through. */
  ghost predicate Passes(json: Text, d: Document) {
    && IsDocument(json, d)
    && Nodes(d.tree) <= MAX_JSON_NODES && Depth(d.tree) <= MAX_JSON_DEPTH && UniqueKeys(d.tree, d.room)
  }

  const BYTE_ORDER_MARK: Text := [0xEF, 0xBB, 0xBF]

  /** TextDecoder drops one byte order mark at the start. */
  function Unmarked(body: Text): (r: Text)
    requires Valid(body)
    ensures Valid(r)
  {
    if BYTE_ORDER_MARK <= body then
      MarkIsWhole(body);
      body[3..]
    else body
  }

  lemma MarkIsWhole(body: Text)
    requires Valid(body) && BYTE_ORDER_MARK <= body
    ensures Valid(body[3..])
  {
    assert body[0] == BYTE_ORDER_MARK[0] && body[1] == BYTE_ORDER_MARK[1] && body[2] == BYTE_ORDER_MARK[2];
    assert DecodeOne(body, 0).width == 3;
    Drop(body, 3);
  }

  /** One byte order mark before a text is not part of it; a second one is. */
  lemma MarkIsDropped(body: Text)
    requires Valid(body)
    ensures Valid([0xEF, 0xBB, 0xBF] + body) && Unmarked([0xEF, 0xBB, 0xBF] + body) == body
    ensures body == [] || body[0] != 0xEF ==> Unmarked(body) == body
  {
    assert ValidFrom(BYTE_ORDER_MARK, 3);
    ValidConcat(BYTE_ORDER_MARK, body);
    hide Valid;
    assert (BYTE_ORDER_MARK + body)[3..] == body;
  }

  lemma LimitsAre()
    ensures MAX_JSON_NODES == 65536 && MAX_JSON_DEPTH == 32
  {
  }

  /** What the desktop's decoder, parser and scan make of a payload. */
  ghost function Classify(body: Text): DesktopFrames.Verdict {
    if !Valid(body) then DesktopFrames.Refused
    else
      var json := UnitsOfText(Unmarked(body));
      if exists d :: Passes(json, d) && d.tree == Lit(Word.Null) then DesktopFrames.Verdict.Null
      else if exists d :: Passes(json, d) then DesktopFrames.Value
      else DesktopFrames.Refused
  }

  /** Whatever document the desktop reads from a native value, its tree is the counterpart, with nothing around it. */
  lemma DocumentMirrors(s: Text, t: Json, room: int, d: Document)
    requires Valid(s) && s == Flatten(t) && IsJson(Native, t, room) && IsDocument(UnitsOfText(s), d)
    ensures Mirrors(t, d.tree) && d.before == [] && d.after == [] && RfcSpaced(t)
  {
    hide *;
    var u := ValueMirrors(t, room);
    OnlyDocument(UnitsOfText(s), u, room, d);
    DocumentParts(UnitsOfText(s), d);
    RfcIsLenient(u, d.room);
    SameSpaces(t, u, d.room);
  }

  lemma NativeDocument(s: Text, t: Json, room: int) returns (d: Document)
    requires Valid(s) && s == Flatten(t) && IsJson(Native, t, room) && RfcSpaced(t)
    ensures IsDocument(UnitsOfText(s), d) && Mirrors(t, d.tree)
  {
    hide *;
    var u := ValueMirrors(t, room);
    SameSpaces(t, u, room);
    d := WholeDocument(UnitsOfText(s), u, room);
  }

  lemma WholeDocument(json: Text, u: Json, room: int) returns (d: Document)
    requires IsJson(Rfc8259, u, room) && json == Flatten(u)
    ensures IsDocument(json, d) && d.tree == u
  {
    d := Document([], u, [], room);
    hide Flatten, IsJson;
  }

  lemma PassesExactly(s: Text, t: Json, room: int, d: Document)
    requires Valid(s) && s == Flatten(t) && IsJson(Native, t, room) && IsDocument(UnitsOfText(s), d)
    ensures Passes(UnitsOfText(s), d) <==> Suits(t, room, MAX_JSON_NODES, MAX_JSON_DEPTH)
    ensures d.tree == Lit(Word.Null) <==> t == Lit(Word.Null)
  {
    hide *;
    DocumentMirrors(s, t, room, d);
    DocumentParts(UnitsOfText(s), d);
    SameMeasures(t, d.tree);
    SameUniqueness(t, room, d.tree, d.room);
    PassesJoins(UnitsOfText(s), t, room, d);
  }

  lemma PassesJoins(json: Text, t: Json, room: int, d: Document)
    requires IsJson(Native, t, room) && IsDocument(json, d) && Mirrors(t, d.tree) && RfcSpaced(t)
             && IsJson(Rfc8259, d.tree, d.room)
    requires Nodes(d.tree) == Nodes(t) && Depth(d.tree) == Depth(t)
    requires UniqueKeys(d.tree, d.room) <==> UniqueThroughout(t, room)
    ensures Passes(json, d) <==> Suits(t, room, MAX_JSON_NODES, MAX_JSON_DEPTH)
    ensures d.tree == Lit(Word.Null) <==> t == Lit(Word.Null)
  {
    hide IsDocument, IsJson, Nodes, Depth, UniqueKeys, UniqueThroughout, RfcSpaced;
  }

  /**
   * Of the values the native grammar knows, the desktop accepts exactly those without other white space than that of
   * RFC 8259, of at most 65536 values and 32 levels, with no repeated key in any object; and only null reads as null.
   */
  lemma AcceptedExactly(s: Text, t: Json, room: int)
    requires Valid(s) && s == Flatten(t) && IsJson(Native, t, room)
    ensures Classify(s) == DesktopFrames.Refused <==> !Suits(t, room, 65536, 32)
    ensures Classify(s) == DesktopFrames.Verdict.Null <==> t == Lit(Word.Null)
  {
    Unmark(s, t, room);
    var json := UnitsOfText(s);
    hide *;
    forall d | IsDocument(json, d)
      ensures Passes(json, d) <==> Suits(t, room, MAX_JSON_NODES, MAX_JSON_DEPTH)
      ensures d.tree == Lit(Word.Null) <==> t == Lit(Word.Null)
    {
      PassesExactly(s, t, room, d);
    }
    SuitsSpaces(t, room);
    LimitsAre();
    var d := Document([], t, [], 0);
    if RfcSpaced(t) { d := NativeDocument(s, t, room); }
    ClassifyJoins(s, t, room, d);
  }

  lemma SuitsSpaces(t: Json, room: int)
    requires IsJson(Native, t, room)
    ensures Suits(t, room, MAX_JSON_NODES, MAX_JSON_DEPTH) ==> RfcSpaced(t)
    ensures t == Lit(Word.Null) ==> Suits(t, room, MAX_JSON_NODES, MAX_JSON_DEPTH)
  {
  }

  lemma Unmark(s: Text, t: Json, room: int)
    requires Valid(s) && s == Flatten(t) && IsJson(Native, t, room)
    ensures Unmarked(s) == s
  {
    FlattenStarts(t, room);
  }

  lemma ClassifyJoins(s: Text, t: Json, room: int, d: Document)
    requires Valid(s) && Unmarked(s) == s && IsJson(Native, t, room)
    requires Suits(t, room, MAX_JSON_NODES, MAX_JSON_DEPTH) ==> IsDocument(UnitsOfText(s), d)
    requires t == Lit(Word.Null) ==> Suits(t, room, MAX_JSON_NODES, MAX_JSON_DEPTH)
    requires forall e | IsDocument(UnitsOfText(s), e) ::
               && (Passes(UnitsOfText(s), e) <==> Suits(t, room, MAX_JSON_NODES, MAX_JSON_DEPTH))
               && (e.tree == Lit(Word.Null) <==> t == Lit(Word.Null))
    ensures Classify(s) == DesktopFrames.Refused <==> !Suits(t, room, MAX_JSON_NODES, MAX_JSON_DEPTH)
    ensures Classify(s) == DesktopFrames.Verdict.Null <==> t == Lit(Word.Null)
  {
    PassesIsDocument(UnitsOfText(s));
    hide Suits, IsDocument, Passes, UnitsOfText, Valid, Unmarked;
    assert forall e {:trigger Passes(UnitsOfText(s), e)} | Passes(UnitsOfText(s), e) :: IsDocument(UnitsOfText(s), e);
  }

  lemma PassesIsDocument(json: Text)
    ensures forall e | Passes(json, e) :: IsDocument(json, e)
  {
  }
}
