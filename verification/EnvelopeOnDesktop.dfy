/** Encoded envelopes on the desktop: exactly which of them it accepts, and what it reads in those. */
module EnvelopeOnDesktop {
  import opened Basics
  import opened Utf8
  import opened JsonGrammar
  import opened JsonStrings
  import opened JsonValues
  import opened JsonValueReader
  import opened JsonObjects
  import opened ScannedText
  import opened JsonScanner
  import opened DesktopText
  import opened UnitTrees
  import opened Decimals
  import opened Timestamps
  import opened Envelope
  import opened EnvelopeRoundTrip
  import opened EnvelopeDecoded
  import opened DesktopAcceptance
  import DesktopFrames

  // ----- Fields in front of a payload -----

  predicate IsScalarTree(t: Json) {
    t.Str? || t.Num? || t.Lit?
  }

  predicate OnlyLastIsNested(fs: seq<(Text, Json)>) {
    fs != [] && forall k | 0 <= k < |fs| - 1 :: IsScalarTree(fs[k].1)
  }

  lemma {:induction false} WrittenMeasures(fs: seq<(Text, Json)>)
    requires AreWritable(fs) && OnlyLastIsNested(fs)
    ensures var ms, last := MembersOf(fs), fs[|fs| - 1].1;
            && MemberNodes(ms) == |fs| - 1 + Nodes(last) && MemberDepth(ms) == Depth(last)
            && (MembersRfcSpaced(ms) <==> RfcSpaced(last))
    decreases |fs|
  {
    hide Flatten, IsJson, EscapePieces, IsPlain;
    if |fs| > 1 {
      WrittenMeasures(fs[1..]);
    } else {
      assert MembersOf(fs[1..]) == NoMember([]);
    }
  }

  lemma {:induction false} WrittenUniqueness(fs: seq<(Text, Json)>)
    requires AreWritable(fs) && OnlyLastIsNested(fs)
    ensures var ms, last := MembersOf(fs), fs[|fs| - 1].1;
            && AreNative(ms) && IsJson(Native, last, MAX_DEPTH)
            && (MembersUnique(ms, MAX_DEPTH) <==> UniqueThroughout(last, MAX_DEPTH))
    decreases |fs|
  {
    WrittenMembers(fs);
    hide Flatten, EscapePieces, IsPlain, ArePieces, IsPad, DecodedKeys;
    if |fs| > 1 {
      WrittenUniqueness(fs[1..]);
    } else {
      assert MembersOf(fs[1..]) == NoMember([]);
    }
  }

  lemma {:induction false} SameNames(ms: Members)
    requires AreNative(ms)
    ensures DecodedKeys(ms, MAX_DEPTH) == Keys(ms)
  {
    hide PiecesValue, ArePieces, IsPad, IsJson;
    if ms.Member? { SameNames(ms.rest); }
  }

  // ----- The tree of an encoded envelope -----

  /** The tree of Encode(e), for a payload that is the object ms. */
  function EnvelopeTree(e: Envelope, ms: Members): Json
    requires WellFormed(e) && IsUniqueObject(e.payload, ms)
  {
    WellFormedOctets(e);
    WrittenTreesFit(e, ms);
    Obj(MembersOf(WrittenTrees(e, ms)))
  }

  lemma TreeIsEncoding(e: Envelope, ms: Members)
    requires WellFormed(e) && IsUniqueObject(e.payload, ms)
    ensures var t := EnvelopeTree(e, ms);
            && AreOctets(e) && Valid(Encode(e)) && Flatten(t) == Encode(e) && IsJson(Native, t, MAX_DEPTH + 1)
            && t.Obj? && AreNative(t.members)
  {
    hide *;
    WellFormedOctets(e);
    var _ := WellFormedParts(e);
    WrittenTreesFit(e, ms);
    EncodeIsValid(e);
    WrittenText(WrittenTrees(e, ms));
    WrittenMembers(WrittenTrees(e, ms));
    TreeJoins(e, ms);
  }

  lemma TreeJoins(e: Envelope, ms: Members)
    requires WellFormed(e) && IsUniqueObject(e.payload, ms) && AreOctets(e)
    requires var fs := WrittenTrees(e, ms);
             && AreWritable(fs) && RawFields(fs) == WrittenFields(e) && AreNative(MembersOf(fs))
             && MembersText(MembersOf(fs)) == Joined(RawFields(fs)) + [CLOSE_BRACE]
    ensures var t := EnvelopeTree(e, ms);
            Flatten(t) == Encode(e) && IsJson(Native, t, MAX_DEPTH + 1) && t.Obj? && AreNative(t.members)
  {
    TreeIs(e, ms);
    EncodeIs(e);
    hide *;
    Braced(MembersOf(WrittenTrees(e, ms)), Joined(WrittenFields(e)));
  }

  lemma EncodeIs(e: Envelope)
    requires AreOctets(e)
    ensures Encode(e) == [OPEN_BRACE] + Joined(WrittenFields(e)) + [CLOSE_BRACE]
  {
    hide WrittenFields, Joined;
  }

  lemma Braced(m: Members, joined: Text)
    requires AreNative(m) && MembersText(m) == joined + [CLOSE_BRACE]
    ensures Flatten(Obj(m)) == [OPEN_BRACE] + joined + [CLOSE_BRACE] && IsJson(Native, Obj(m), MAX_DEPTH + 1)
  {
    hide MembersText, AreMembers;
    assert [OPEN_BRACE] + (joined + [CLOSE_BRACE]) == [OPEN_BRACE] + joined + [CLOSE_BRACE];
  }

  lemma WrittenIsNested(e: Envelope, ms: Members)
    requires AreOctets(e)
    ensures var fs := WrittenTrees(e, ms); OnlyLastIsNested(fs) && |fs| == 6 && fs[5].1 == Obj(ms)
  {
    hide EscapePieces, Decimal, Keyword, KindText, IsOctets;
  }

  /** The envelope adds six values, one level and six names that are all different. */
  lemma TreeMeasures(e: Envelope, ms: Members)
    requires WellFormed(e) && IsUniqueObject(e.payload, ms)
    ensures var t, payload := EnvelopeTree(e, ms), Obj(ms);
            && IsJson(Native, t, MAX_DEPTH + 1) && IsJson(Native, payload, MAX_DEPTH)
            && Nodes(t) == 6 + Nodes(payload) && Depth(t) == 1 + Depth(payload)
            && (RfcSpaced(t) <==> RfcSpaced(payload))
            && (UniqueThroughout(t, MAX_DEPTH + 1) <==> UniqueThroughout(payload, MAX_DEPTH))
  {
    hide *;
    TreeIsEncoding(e, ms);
    WellFormedOctets(e);
    var _ := WellFormedParts(e);
    WrittenTreesFit(e, ms);
    WrittenIsNested(e, ms);
    var fs := WrittenTrees(e, ms);
    WrittenMeasures(fs);
    WrittenUniqueness(fs);
    WrittenMembers(fs);
    SameNames(MembersOf(fs));
    WrittenCarries(e);
    MeasuresJoin(e, ms, fs);
  }

  lemma MeasuresJoin(e: Envelope, ms: Members, fs: seq<(Text, Json)>)
    requires WellFormed(e) && IsUniqueObject(e.payload, ms) && AreOctets(e) && fs == WrittenTrees(e, ms)
             && AreWritable(fs)
    requires |fs| == 6 && fs[5].1 == Obj(ms) && RawFields(fs) == WrittenFields(e) && Distinct(Names(WrittenFields(e)))
    requires var m := MembersOf(fs);
             && MemberNodes(m) == 5 + Nodes(Obj(ms)) && MemberDepth(m) == Depth(Obj(ms))
             && (MembersRfcSpaced(m) <==> RfcSpaced(Obj(ms)))
             && AreNative(m) && IsJson(Native, Obj(ms), MAX_DEPTH)
             && (MembersUnique(m, MAX_DEPTH) <==> UniqueThroughout(Obj(ms), MAX_DEPTH))
             && DecodedKeys(m, MAX_DEPTH) == Keys(m) == Names(RawFields(fs))
    ensures var t, payload := EnvelopeTree(e, ms), Obj(ms);
            && IsJson(Native, t, MAX_DEPTH + 1) && IsJson(Native, payload, MAX_DEPTH)
            && Nodes(t) == 6 + Nodes(payload) && Depth(t) == 1 + Depth(payload)
            && (RfcSpaced(t) <==> RfcSpaced(payload))
            && (UniqueThroughout(t, MAX_DEPTH + 1) <==> UniqueThroughout(payload, MAX_DEPTH))
  {
    TreeIs(e, ms);
    hide *;
    MeasuresOf(MembersOf(fs));
  }

  lemma TreeIs(e: Envelope, ms: Members)
    requires WellFormed(e) && IsUniqueObject(e.payload, ms) && AreOctets(e) && AreWritable(WrittenTrees(e, ms))
    ensures EnvelopeTree(e, ms) == Obj(MembersOf(WrittenTrees(e, ms)))
  {
    hide WrittenTrees, MembersOf, WellFormed, IsUniqueObject, AreWritable, AreOctets;
  }

  lemma MeasuresOf(m: Members)
    requires AreNative(m)
    ensures var t := Obj(m);
            && Nodes(t) == 1 + MemberNodes(m) && Depth(t) == Max(0, 1 + MemberDepth(m))
            && Max(0, 1 + MemberDepth(m)) == 1 + MemberDepth(m)
            && (RfcSpaced(t) <==> MembersRfcSpaced(m))
            && IsJson(Native, t, MAX_DEPTH + 1) && AreMembers(Native, m, MAX_DEPTH)
            && (UniqueThroughout(t, MAX_DEPTH + 1) <==>
               Distinct(DecodedKeys(m, MAX_DEPTH)) && MembersUnique(m, MAX_DEPTH))
  {
    hide AreMembers, DecodedKeys, MembersUnique, MembersRfcSpaced, MemberNodes, MemberDepth;
  }

  // ----- Which envelopes the desktop accepts -----

  /**
   * The desktop accepts an encoded envelope exactly when the payload has no other white space than that of RFC 8259,
   * at most 65530 values and 31 levels, and no repeated key in any object.
   */
  lemma EncodingAccepted(e: Envelope, ms: Members)
    requires WellFormed(e) && IsUniqueObject(e.payload, ms)
    ensures AreOctets(e) && IsJson(Native, Obj(ms), MAX_DEPTH)
    ensures Classify(Encode(e)) ==
            if Suits(Obj(ms), MAX_DEPTH, 65530, 31) then DesktopFrames.Value
              else DesktopFrames.Refused
  {
    hide *;
    TreeIsEncoding(e, ms);
    TreeMeasures(e, ms);
    AcceptedExactly(Encode(e), EnvelopeTree(e, ms), MAX_DEPTH + 1);
    AcceptanceJoins(EnvelopeTree(e, ms), Obj(ms));
  }

  lemma AcceptanceJoins(t: Json, payload: Json)
    requires t.Obj? && IsJson(Native, t, MAX_DEPTH + 1) && IsJson(Native, payload, MAX_DEPTH)
    requires Nodes(t) == 6 + Nodes(payload) && Depth(t) == 1 + Depth(payload) && (RfcSpaced(t) <==> RfcSpaced(payload))
    requires UniqueThroughout(t, MAX_DEPTH + 1) <==> UniqueThroughout(payload, MAX_DEPTH)
    ensures Suits(t, MAX_DEPTH + 1, 65536, 32)
       <==> Suits(payload, MAX_DEPTH, 65530, 31)
    ensures t != Lit(Word.Null)
  {
    hide RfcSpaced, Nodes, Depth, UniqueThroughout, IsJson;
  }

  // ----- What it reads in them -----

  /** The properties of an object in order, names decoded to units. */
  function Properties(us: Members, room: int): seq<(Text, Json)>
    requires AreMembers(Rfc8259, us, room)
  {
    if us.NoMember? then [] else [(PieceUnits(us.key), us.value)] + Properties(us.rest, room)
  }

  /** v is a string and stands for the well-formed octets text. */
  predicate IsText(v: Json, text: Text) {
    v.Str? && ArePieces(Rfc8259, v.pieces) && Valid(text) && PieceUnits(v.pieces) == UnitsOfText(text)
  }

  lemma NameMirrors(name: Text, key: seq<Piece>)
    requires IsPlain(name) && IsOctets(name) && SameString(EscapePieces(name), key)
    ensures ArePieces(Rfc8259, key) && PieceUnits(key) == name
  {
    EscapeReadsBack(name);
    AsciiUnits(name);
  }

  lemma TextMirrors(x: Text, v: Json)
    requires IsOctets(x) && Mirrors(StringTree(x), v)
    ensures IsText(v, x)
  {
    EscapeReadsBack(x);
    hide UnitsOfText, Valid, EscapePieces, PiecesValue, PieceUnits, ArePieces;
  }

  lemma {:induction false} FieldsMirror(fs: seq<(Text, Json)>, us: Members, room: int)
    requires AreWritable(fs) && MembersMirror(MembersOf(fs), us) && AreMembers(Rfc8259, us, room)
    ensures var ps := Properties(us, room);
            |ps| == |fs| && forall i | 0 <= i < |fs| :: ps[i].0 == fs[i].0 && Mirrors(fs[i].1, ps[i].1)
    decreases |fs|
  {
    hide IsJson, EscapePieces, IsPlain, Mirrors, SameString, PieceUnits, ArePieces, IsPad;
    if fs != [] {
      PlainOctets(fs[0].0);
      NameMirrors(fs[0].0, us.key);
      FieldsMirror(fs[1..], us.rest, room);
    }
  }

  /**
   * Six properties under their names: the version and the number digit by digit, the strings unit by unit, and the
   * payload, the object ms, value by value.
   */
  predicate AreFields(ps: seq<(Text, Json)>, e: Envelope, ms: Members) {
    && |ps| == 6 && (forall i | 0 <= i < 6 :: ps[i].0 == SixNames(e.kind == Event)[i])
    && ps[0].1 == DecimalJson(1) && IsText(ps[1].1, KindText(e.kind))
    && (if e.kind == Event then e.sequence.Some? && ps[2].1 == DecimalJson(e.sequence.value)
        else e.id.Some? && IsText(ps[2].1, e.id.value))
    && IsText(ps[3].1, e.name) && IsText(ps[4].1, e.timestamp) && Mirrors(Obj(ms), ps[5].1)
  }

  /** The document is an object that carries e, and nothing else. */
  predicate ReadsAs(d: Document, e: Envelope, ms: Members) {
    && d.tree.Obj? && AreMembers(Rfc8259, d.tree.members, d.room - 1)
    && AreFields(Properties(d.tree.members, d.room - 1), e, ms)
  }

  /** Whatever document the desktop reads in an encoded envelope, it is the envelope that was sent. */
  lemma PropertiesArrive(e: Envelope, ms: Members, d: Document)
    requires WellFormed(e) && IsUniqueObject(e.payload, ms) && AreOctets(e) && Valid(Encode(e))
    requires IsDocument(UnitsOfText(Encode(e)), d)
    ensures ReadsAs(d, e, ms)
  {
    hide *;
    TreeIsEncoding(e, ms);
    var _ := WellFormedParts(e);
    WrittenTreesFit(e, ms);
    TreeIs(e, ms);
    DocumentMirrors(Encode(e), EnvelopeTree(e, ms), MAX_DEPTH + 1, d);
    DocumentParts(UnitsOfText(Encode(e)), d);
    var fs := WrittenTrees(e, ms);
    RootMirrors(MembersOf(fs), d);
    FieldsMirror(fs, d.tree.members, d.room - 1);
    FieldsArrive(e, ms, Properties(d.tree.members, d.room - 1));
    ReadingJoins(d, e, ms);
  }

  lemma ReadingJoins(d: Document, e: Envelope, ms: Members)
    requires d.tree.Obj? && AreMembers(Rfc8259, d.tree.members, d.room - 1)
    requires AreFields(Properties(d.tree.members, d.room - 1), e, ms)
    ensures ReadsAs(d, e, ms)
  {
    hide AreFields, Properties, AreMembers;
  }

  lemma RootMirrors(m: Members, d: Document)
    requires Mirrors(Obj(m), d.tree) && IsJson(Rfc8259, d.tree, d.room)
    ensures d.tree.Obj? && MembersMirror(m, d.tree.members) && AreMembers(Rfc8259, d.tree.members, d.room - 1)
  {
    hide MembersMirror, AreMembers;
  }

  lemma FieldsArrive(e: Envelope, ms: Members, ps: seq<(Text, Json)>)
    requires AreOctets(e) && KindAgrees(e.kind, e.id, e.sequence)
    requires var fs := WrittenTrees(e, ms);
             |ps| == |fs| && forall i | 0 <= i < |fs| :: ps[i].0 == fs[i].0 && Mirrors(fs[i].1, ps[i].1)
    ensures AreFields(ps, e, ms)
  {
    var fs := WrittenTrees(e, ms);
    WrittenTreesAre(e, ms);
    hide *;
    OctetParts(e);
    TextMirrors(KindText(e.kind), ps[1].1);
    TextMirrors(e.name, ps[3].1);
    TextMirrors(e.timestamp, ps[4].1);
    NumberMirrors(1, ps[0].1);
    if e.kind == Event {
      NumberMirrors(e.sequence.value, ps[2].1);
    } else {
      TextMirrors(e.id.value, ps[2].1);
    }
    FieldsJoin(ps, e, ms);
  }

  lemma FieldsJoin(ps: seq<(Text, Json)>, e: Envelope, ms: Members)
    requires |ps| == 6 && |SixNames(e.kind == Event)| == 6 && forall i | 0 <= i < 6 ::
             ps[i].0 == SixNames(e.kind == Event)[i]
    requires ps[0].1 == DecimalJson(1) && IsText(ps[1].1, KindText(e.kind))
    requires if e.kind == Event then e.sequence.Some? && ps[2].1 == DecimalJson(e.sequence.value)
             else e.id.Some? && IsText(ps[2].1, e.id.value)
    requires IsText(ps[3].1, e.name) && IsText(ps[4].1, e.timestamp) && Mirrors(Obj(ms), ps[5].1)
    ensures AreFields(ps, e, ms)
  {
    hide SixNames, IsText, Mirrors, DecimalJson, KindText;
  }

  lemma WrittenTreesAre(e: Envelope, ms: Members)
    requires AreOctets(e) && KindAgrees(e.kind, e.id, e.sequence)
    ensures var fs, event := WrittenTrees(e, ms), e.kind == Event;
            && |fs| == 6 && |SixNames(event)| == 6 && (forall i | 0 <= i < 6 :: fs[i].0 == SixNames(event)[i])
            && IsOctets(KindText(e.kind)) && fs[0].1 == DecimalJson(1) && fs[1].1 == StringTree(KindText(e.kind))
            && (if event then e.sequence.Some? && fs[2].1 == DecimalJson(e.sequence.value)
                else e.id.Some? && fs[2].1 == StringTree(e.id.value))
            && fs[3].1 == StringTree(e.name) && fs[4].1 == StringTree(e.timestamp) && fs[5].1 == Obj(ms)
  {
    KindsArePlain(e.kind);
    AgreeingParts(e);
    hide *;
    WrittenTreesNamed(e, ms);
  }

  lemma AgreeingParts(e: Envelope)
    requires KindAgrees(e.kind, e.id, e.sequence)
    ensures if e.kind == Event then e.sequence.Some? else e.id.Some?
  {
  }

  lemma WrittenTreesNamed(e: Envelope, ms: Members)
    requires AreOctets(e) && IsOctets(KindText(e.kind)) && (if e.kind == Event then e.sequence.Some? else e.id.Some?)
    requires e.id.Some? ==> IsOctets(e.id.value)
    ensures var fs, event := WrittenTrees(e, ms), e.kind == Event;
            && |fs| == 6 && |SixNames(event)| == 6 && (forall i | 0 <= i < 6 :: fs[i].0 == SixNames(event)[i])
            && fs[0].1 == DecimalJson(1) && fs[1].1 == StringTree(KindText(e.kind))
            && fs[2].1 == (if event then DecimalJson(e.sequence.value) else StringTree(e.id.value))
            && fs[3].1 == StringTree(e.name) && fs[4].1 == StringTree(e.timestamp) && fs[5].1 == Obj(ms)
  {
    hide StringTree, DecimalJson, Keyword, KindText, IsOctets, Ascii;
  }

  lemma NumberMirrors(n: nat, v: Json)
    requires Mirrors(DecimalJson(n), v)
    ensures v == DecimalJson(n)
  {
    hide Decimal;
  }

  // ----- Exactly the deliverable ones arrive -----

  /** The payload of e is one the desktop takes inside an envelope. */
  ghost predicate IsDeliverable(e: Envelope) {
    exists ms :: IsUniqueObject(e.payload, ms) && Suits(Obj(ms), MAX_DEPTH, 65530, 31)
  }

  /** The desktop reads body as one document, and whichever it is, it is e. */
  ghost predicate ArrivesAs(body: Text, e: Envelope) {
    && Valid(body) && (exists d :: IsDocument(UnitsOfText(Unmarked(body)), d))
    && exists ms :: IsUniqueObject(e.payload, ms) && forall d | IsDocument(UnitsOfText(Unmarked(body)), d) ::
       ReadsAs(d, e, ms)
  }

  /**
   * Of the well-formed envelopes the desktop accepts exactly those with a deliverable payload, and
   * reads them as sent.
   */
  lemma DeliverableArrives(e: Envelope)
    requires WellFormed(e)
    ensures AreOctets(e)
    ensures Classify(Encode(e)) == if IsDeliverable(e) then DesktopFrames.Value else DesktopFrames.Refused
    ensures IsDeliverable(e) ==> ArrivesAs(Encode(e), e)
  {
    hide *;
    var ms := WellFormedParts(e);
    WellFormedOctets(e);
    forall other | IsUniqueObject(e.payload, other)
      ensures IsJson(Native, Obj(other), MAX_DEPTH)
      ensures Classify(Encode(e)) ==
              if Suits(Obj(other), MAX_DEPTH, 65530, 31) then DesktopFrames.Value
              else DesktopFrames.Refused
    {
      EncodingAccepted(e, other);
    }
    DeliverableJoins(e, Classify(Encode(e)), ms);
    if IsDeliverable(e) { AcceptedArrives(e, ms); }
  }

  lemma DeliverableJoins(e: Envelope, verdict: DesktopFrames.Verdict, ms: Members)
    requires IsUniqueObject(e.payload, ms)
    requires forall other | IsUniqueObject(e.payload, other) ::
               && IsJson(Native, Obj(other), MAX_DEPTH)
               && verdict == (if Suits(Obj(other), MAX_DEPTH, 65530, 31) then
                  DesktopFrames.Value
                              else DesktopFrames.Refused)
    ensures verdict == if IsDeliverable(e) then DesktopFrames.Value else DesktopFrames.Refused
  {
    hide IsUniqueObject, Suits, IsJson;
  }

  lemma AcceptedArrives(e: Envelope, ms: Members)
    requires WellFormed(e) && IsUniqueObject(e.payload, ms) && AreOctets(e)
             && Classify(Encode(e)) == DesktopFrames.Value
    ensures ArrivesAs(Encode(e), e)
  {
    hide *;
    TreeIsEncoding(e, ms);
    Unmark(Encode(e), EnvelopeTree(e, ms), MAX_DEPTH + 1);
    var body := Encode(e);
    ValueIsDocument(body);
    forall d | IsDocument(UnitsOfText(body), d) ensures ReadsAs(d, e, ms) { PropertiesArrive(e, ms, d); }
    ArrivalJoins(body, e, ms);
  }

  lemma ValueIsDocument(body: Text)
    requires Classify(body) == DesktopFrames.Value
    ensures Valid(body) && exists d :: IsDocument(UnitsOfText(Unmarked(body)), d)
  {
    hide IsDocument, UnitsOfText, Unmarked, Valid;
  }

  lemma ArrivalJoins(body: Text, e: Envelope, ms: Members)
    requires Valid(body) && Unmarked(body) == body && IsUniqueObject(e.payload, ms)
    requires (exists d :: IsDocument(UnitsOfText(body), d)) && forall d | IsDocument(UnitsOfText(body), d) ::
             ReadsAs(d, e, ms)
    ensures ArrivesAs(body, e)
  {
    hide IsDocument, ReadsAs, IsUniqueObject, UnitsOfText, Unmarked, Valid;
  }

  // ----- A payload that only the native host accepts -----

  /** "b":1,"b":2} */
  const INNER_REPEAT: Text := [0x22, 0x62, 0x22, 0x3A, 0x31, 0x2C, 0x22, 0x62, 0x22, 0x3A, 0x32, 0x7D]

  /** {"a":{"b":1,"b":2}} */
  const NESTED_REPEAT: Text := [0x7B, 0x22, 0x61, 0x22, 0x3A, 0x7B] + INNER_REPEAT + [0x7D]

  /**
   * A key repeated below the top level: every message with this payload passes natively, and the
   * desktop refuses it.
   */
  lemma NestedRepeatIsRefused(e: Envelope)
    requires WellFormed(e)
    ensures var sent := e.(payload := NESTED_REPEAT);
            && WellFormed(sent) && AreOctets(sent) && Decode(Encode(sent)) == Ok(sent)
            && Classify(Encode(sent)) == DesktopFrames.Refused
  {
    hide *;
    var ms := NestedRepeat();
    var sent := WithPayload(e, NESTED_REPEAT, ms);
    DecodeUndoesEncode(sent);
    EncodingAccepted(sent, ms);
    NeverSuits(ms, 65530, 31);
  }

  lemma WithPayload(e: Envelope, payload: Text, ms: Members) returns (sent: Envelope)
    requires WellFormed(e) && Valid(payload) && IsUniqueObject(payload, ms)
    ensures sent == e.(payload := payload) && WellFormed(sent)
  {
    hide IsUniqueObject, IsTimestamp, IsId, Valid, KindAgrees;
    sent := e.(payload := payload);
    assert IsUniqueObject(sent.payload, ms);
  }

  lemma NeverSuits(ms: Members, nodes: int, depth: int)
    requires IsJson(Native, Obj(ms), MAX_DEPTH) && !UniqueThroughout(Obj(ms), MAX_DEPTH)
    ensures !Suits(Obj(ms), MAX_DEPTH, nodes, depth)
  {
    hide UniqueThroughout, RfcSpaced, Nodes, Depth;
  }

  /** A member named by one letter, without white space. */
  function Plain(letter: int, value: Json, rest: Members): Members {
    Member([], [Raw(letter)], [], [], value, [], rest)
  }

  lemma PlainIs(letter: int, value: Json, rest: Members, room: int)
    requires 0x61 <= letter <= 0x7A && IsJson(Native, value, room) && AreMembers(Native, rest, room) && rest.pad == []
    ensures var m := Plain(letter, value, rest);
            && AreMembers(Native, m, room) && DecodedKeys(m, room) == [[letter]] + DecodedKeys(rest, room)
            && MembersText(m) == [QUOTE, letter, QUOTE, COLON] + Flatten(value)
               + (Separator(rest.Member?) + MembersText(rest))
  {
    var ps := [Raw(letter)];
    assert ps[1..] == [];
    assert PiecesText(ps) == [letter] + [] && PiecesValue(ps) == [letter] + [] == [letter];
    assert StringText(ps) == [QUOTE, letter, QUOTE];
    hide StringText, Flatten, PiecesText, PiecesValue, Separator, IsJson;
    NoPadding([QUOTE, letter, QUOTE], Flatten(value), Separator(rest.Member?) + MembersText(rest));
    assert [QUOTE, letter, QUOTE] + [COLON] == [QUOTE, letter, QUOTE, COLON];
  }

  lemma EmptyRest(room: int)
    ensures AreMembers(Native, NoMember([]), room) && MembersText(NoMember([])) == [CLOSE_BRACE]
    ensures DecodedKeys(NoMember([]), room) == []
  {
  }

  lemma Digit(n: nat)
    requires n < 10
    ensures IsJson(Native, DecimalJson(n), MAX_DEPTH - 2) && Flatten(DecimalJson(n)) == [0x30 + n]
  {
    DecimalIsJson(Native, n, MAX_DEPTH - 2);
  }

  lemma InnerRepeat() returns (inner: Members)
    ensures AreMembers(Native, inner, MAX_DEPTH - 2) && DecodedKeys(inner, MAX_DEPTH - 2) == [[0x62], [0x62]]
    ensures MembersText(inner) == INNER_REPEAT
  {
    hide DecimalJson, Flatten, IsJson, AreMembers, DecodedKeys, MembersText;
    EmptyRest(MAX_DEPTH - 2);
    Digit(1);
    Digit(2);
    var second := Plain(0x62, DecimalJson(2), NoMember([]));
    PlainIs(0x62, DecimalJson(2), NoMember([]), MAX_DEPTH - 2);
    inner := Plain(0x62, DecimalJson(1), second);
    PlainIs(0x62, DecimalJson(1), second, MAX_DEPTH - 2);
  }

  lemma NestedRepeat() returns (ms: Members)
    ensures Valid(NESTED_REPEAT) && IsUniqueObject(NESTED_REPEAT, ms)
    ensures IsJson(Native, Obj(ms), MAX_DEPTH) && !UniqueThroughout(Obj(ms), MAX_DEPTH)
  {
    hide Flatten, IsJson, AreMembers, DecodedKeys, MembersText, UniqueThroughout, MembersUnique, Valid, IsUniqueObject;
    var inner := InnerRepeat();
    ObjectOf(inner, MAX_DEPTH - 2);
    EmptyRest(MAX_DEPTH - 1);
    ms := Plain(0x61, Obj(inner), NoMember([]));
    PlainIs(0x61, Obj(inner), NoMember([]), MAX_DEPTH - 1);
    ObjectOf(ms, MAX_DEPTH - 1);
    MembersWithMoreRoom(ms, MAX_DEPTH - 1);
    NestedText(ms);
    NestedIsUnique(ms);
    InnerDecides(inner, ms);
  }

  lemma NestedText(ms: Members)
    requires Flatten(Obj(ms)) == [OPEN_BRACE] + MembersText(ms)
    requires MembersText(ms) == [QUOTE, 0x61, QUOTE, COLON] + ([OPEN_BRACE] + INNER_REPEAT)
             + (Separator(false) + [CLOSE_BRACE])
    ensures Flatten(Obj(ms)) == NESTED_REPEAT && Valid(NESTED_REPEAT)
  {
    hide MembersText, Flatten, Valid;
    AsciiUnits(NESTED_REPEAT);
  }

  lemma NestedIsUnique(ms: Members)
    requires ms.Member? && ms.rest.NoMember? && IsJson(Native, Obj(ms), MAX_DEPTH) && AreMembers(Native, ms, MAX_DEPTH)
    requires Flatten(Obj(ms)) == NESTED_REPEAT
    ensures IsUniqueObject(NESTED_REPEAT, ms)
  {
    hide IsJson, Flatten, PiecesValue;
    assert Keys(ms) == [PiecesValue(ms.key)] + Keys(ms.rest) && Keys(ms.rest) == [];
  }

  lemma ObjectOf(m: Members, room: int)
    requires AreMembers(Native, m, room) && room >= -1
    ensures IsJson(Native, Obj(m), room + 1) && Flatten(Obj(m)) == [OPEN_BRACE] + MembersText(m)
    ensures UniqueThroughout(Obj(m), room + 1) <==> NoRepeats(DecodedKeys(m, room)) && MembersUnique(m, room)
  {
    hide AreMembers, MembersText, DecodedKeys, MembersUnique;
  }

  lemma InnerDecides(inner: Members, ms: Members)
    requires ms == Plain(0x61, Obj(inner), NoMember([])) && AreMembers(Native, ms, MAX_DEPTH - 1)
    requires IsJson(Native, Obj(inner), MAX_DEPTH - 1) && AreMembers(Native, inner, MAX_DEPTH - 2)
    requires IsJson(Native, Obj(ms), MAX_DEPTH) && DecodedKeys(inner, MAX_DEPTH - 2) == [[0x62], [0x62]]
    ensures !UniqueThroughout(Obj(ms), MAX_DEPTH)
  {
    ObjectOf(inner, MAX_DEPTH - 2);
    ObjectOf(ms, MAX_DEPTH - 1);
    hide IsJson, DecodedKeys, UniqueThroughout;
    assert DecodedKeys(inner, MAX_DEPTH - 2)[0] == DecodedKeys(inner, MAX_DEPTH - 2)[1];
  }
}
