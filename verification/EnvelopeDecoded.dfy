/** Whatever decodes is well-formed, so decoding undoes encoding on exactly the well-formed envelopes. */
module EnvelopeDecoded {
  import opened Basics
  import opened Utf8
  import opened JsonGrammar
  import opened JsonStrings
  import opened JsonValues
  import opened JsonValueReader
  import opened JsonObjects
  import opened Decimals
  import opened Timestamps
  import opened Envelope
  import opened EnvelopeRoundTrip

  // ----- Each field of a read object is a value of the grammar -----

  lemma DelimiterIsCut(s: Text, i: nat)
    requires i <= |s| && Delimited(Native, s, i)
    ensures IsCut(s, i)
  {
  }

  lemma StartIsCut(s: Text, l: nat, v: Json)
    requires IsJson(Native, v, MAX_DEPTH) && At(s, l, Flatten(v))
    ensures IsCut(s, l) && l + |Flatten(v)| <= |s|
  {
    ValueStarts(s, l, v, MAX_DEPTH);
  }

  lemma {:induction false} FieldSlice(s: Text, i: nat, ms: Members, key: Text) returns (v: Json, a: nat, b: nat)
    requires AreNative(ms) && At(s, i, MembersText(ms)) && key in FieldMap(ms) && Distinct(Keys(ms))
    ensures IsJson(Native, v, MAX_DEPTH) && FieldMap(ms)[key] == Flatten(v)
    ensures a <= b <= |s| && s[a..b] == Flatten(v) && IsCut(s, a) && IsCut(s, b)
    decreases ms
  {
    hide *;
    InKeys(ms, key);
    var j, k, g, l, e, t := MemberParts(s, i, ms);
    RestIsNative(ms);
    MemberShapes(ms, MAX_DEPTH);
    if key == PiecesValue(ms.key) {
      v, a, b := ms.value, l, e;
      StartIsCut(s, l, v);
      TrailComplete(s, e, t, ms);
      DelimiterIsCut(s, e);
      AtSlice(s, l, Flatten(v));
    } else {
      AtConcat(s, t, Separator(ms.rest.Member?), MembersText(ms.rest));
      v, a, b := FieldSlice(s, t + |Separator(ms.rest.Member?)|, ms.rest, key);
    }
  }

  lemma InKeys(ms: Members, key: Text)
    requires AreNative(ms) && key in FieldMap(ms) && Distinct(Keys(ms))
    ensures ms.Member? && (ArePieces(Native, ms.key) && AreNative(ms.rest))
    ensures key == PiecesValue(ms.key) ==> FieldMap(ms)[key] == Flatten(ms.value)
    ensures key != PiecesValue(ms.key) ==> key in FieldMap(ms.rest) && FieldMap(ms)[key] == FieldMap(ms.rest)[key]
    ensures Distinct(Keys(ms.rest))
  {
    hide PiecesValue, Flatten, Distinct;
    DistinctCons(PiecesValue(ms.key), Keys(ms.rest));
  }

  lemma RestIsNative(ms: Members)
    requires AreNative(ms) && ms.Member?
    ensures AreMembers(Native, ms, MAX_DEPTH) && AreNative(ms.rest)
  {
  }

  /** A field of a read UTF-8 object is itself UTF-8 and a value of the grammar. */
  lemma FieldIsValue(json: Text, fields: Fields, key: Text) returns (v: Json)
    requires Valid(json) && ObjectFields(json) == Some(fields) && key in fields
    ensures IsJson(Native, v, MAX_DEPTH) && fields[key] == Flatten(v) && Valid(fields[key])
  {
    hide *;
    var before, ms, after := ObjectSound(json);
    ObjectTextStands(json, before, ms, after);
    var a, b;
    v, a, b := FieldSlice(json, |before| + 1, ms, key);
    SliceIsValid(json, a, b);
  }

  lemma ObjectTextStands(json: Text, before: Text, ms: Members, after: Text)
    requires json == before + ([OPEN_BRACE] + MembersText(ms)) + after
    ensures At(json, |before| + 1, MembersText(ms))
  {
    hide MembersText;
  }

  // ----- Each part of a decoded envelope is well-formed -----

  lemma StringFieldKeepsUtf8(raw: Text)
    requires Valid(raw) && DecodeStringValue(raw).Some?
    ensures Valid(DecodeStringValue(raw).value)
  {
    hide DecodeOne, SkipSpace, StringAt, PiecesValue, StringText;
    AsciiRun(raw, 0, 1);
    StringKeepsUtf8(raw, 1);
  }

  lemma {:induction false} ValueWithMoreRoom(t: Json, room: int)
    requires IsJson(Native, t, room)
    ensures IsJson(Native, t, room + 1)
    decreases t
  {
    hide IsPad, ArePieces, IsNumber;
    match t {
      case Obj(ms) => MembersWithMoreRoom(ms, room - 1);
      case Arr(xs) => ItemsWithMoreRoom(xs, room - 1);
      case _ =>
    }
  }

  lemma {:induction false} MembersWithMoreRoom(ms: Members, room: int)
    requires AreMembers(Native, ms, room)
    ensures AreMembers(Native, ms, room + 1)
    decreases ms
  {
    hide IsPad, ArePieces, IsJson;
    if ms.Member? {
      ValueWithMoreRoom(ms.value, room);
      MembersWithMoreRoom(ms.rest, room);
    }
  }

  lemma {:induction false} ItemsWithMoreRoom(xs: Items, room: int)
    requires AreItems(Native, xs, room)
    ensures AreItems(Native, xs, room + 1)
    decreases xs
  {
    hide IsPad, IsJson;
    if xs.Item? {
      ValueWithMoreRoom(xs.value, room);
      ItemsWithMoreRoom(xs.rest, room);
    }
  }

  lemma OnlyObjectsStartWithBrace(v: Json, room: int)
    requires IsJson(Native, v, room) && |Flatten(v)| > 0 && Flatten(v)[0] == OPEN_BRACE
    ensures v.Obj? && Flatten(v) == [OPEN_BRACE] + MembersText(v.members) && AreMembers(Native, v.members, room - 1)
  {
    if v.Num? { NumberShape(v.number); }
  }

  /** A payload field that passes the checks is an object of the grammar with distinct keys. */
  lemma PayloadIsUniqueObject(v: Json)
    requires IsJson(Native, v, MAX_DEPTH) && IsPayload(Flatten(v))
    ensures v.Obj? && IsUniqueObject(Flatten(v), v.members)
  {
    var payload := Flatten(v);
    FlattenStarts(v, MAX_DEPTH);
    StartsNoSpace(payload[0]);
    PayloadStarts(payload);
    OnlyObjectsStartWithBrace(v, MAX_DEPTH);
    hide *;
    MembersWithMoreRoom(v.members, MAX_DEPTH - 1);
    PayloadAssembles(v);
  }

  lemma PayloadStarts(payload: Text)
    requires IsPayload(payload) && payload != [] && !IsSpace(Native, payload[0])
    ensures payload[0] == OPEN_BRACE && ObjectFields(payload).Some?
  {
    hide ObjectFields;
  }

  lemma PayloadAssembles(v: Json)
    requires v.Obj? && IsJson(Native, v, MAX_DEPTH) && Flatten(v) == [OPEN_BRACE] + MembersText(v.members)
    requires AreMembers(Native, v.members, MAX_DEPTH) && ObjectFields(Flatten(v)).Some?
    ensures IsUniqueObject(Flatten(v), v.members)
  {
    var ms := v.members;
    assert AreNative(ms);
    hide Flatten, MembersText, IsJson, AreMembers, ObjectFields, Keys, Distinct, AreNative;
    var payload := Flatten(v);
    assert payload == [] + ([OPEN_BRACE] + MembersText(ms)) + [];
    ObjectComplete(payload, [], ms, []);
  }

  /** What the checks of DecodeEnvelope leave to know about a decoded envelope. */
  lemma DecodedParts(fields: Fields, e: Envelope)
    requires DecodeFields(fields) == Ok(e)
    ensures HasRequired(fields) && e.version == 1 && KindAgrees(e.kind, e.id, e.sequence)
    ensures (e.id.Some? ==> IsId(e.id.value)) && (e.sequence.Some? ==> e.sequence.value <= UINT64_MAX)
    ensures DecodeStringValue(fields[Keyword(4)]) == Some(e.name) && 1 <= |e.name| <= 64
    ensures IsTimestamp(e.timestamp) && e.payload == fields[Keyword(6)] && IsPayload(e.payload)
  {
    hide Keyword, DecodeStringValue, ParseKind, ParseSigned, OnlyKnown, IsTimestamp, IsPayload, IsId, DigitsValue,
         AreDigits;
  }

  lemma DecodedIsWellFormed(json: Text, e: Envelope)
    requires Decode(json) == Ok(e)
    ensures WellFormed(e)
  {
    hide *;
    var fields := DecodedFields(json, e);
    DecodedParts(fields, e);
    RequiredNames(fields);
    var _ := FieldIsValue(json, fields, Keyword(4));
    StringFieldKeepsUtf8(fields[Keyword(4)]);
    var v := FieldIsValue(json, fields, Keyword(6));
    PayloadIsUniqueObject(v);
    WellFormedJoins(e, v.members);
  }

  lemma DecodedFields(json: Text, e: Envelope) returns (fields: Fields)
    requires Decode(json) == Ok(e)
    ensures Valid(json) && ObjectFields(json) == Some(fields) && DecodeFields(fields) == Ok(e)
  {
    hide Valid, ObjectFields, DecodeFields;
    fields := ObjectFields(json).value;
  }

  lemma RequiredNames(fields: Fields)
    requires HasRequired(fields)
    ensures Keyword(4) in fields && Keyword(6) in fields
  {
    hide Keyword;
  }

  lemma WellFormedJoins(e: Envelope, ms: Members)
    requires e.version == 1 && KindAgrees(e.kind, e.id, e.sequence)
    requires (e.id.Some? ==> IsId(e.id.value)) && (e.sequence.Some? ==> e.sequence.value <= UINT64_MAX)
    requires 1 <= |e.name| <= 64 && Valid(e.name) && IsTimestamp(e.timestamp) && Valid(e.payload)
             && IsUniqueObject(e.payload, ms)
    ensures WellFormed(e)
  {
    hide IsId, KindAgrees, Valid, IsTimestamp, IsUniqueObject;
  }

  /** Exactly the well-formed envelopes survive the trip, and whatever was decoded survives the next one. */
  lemma RoundTripExactlyWellFormed(e: Envelope)
    requires AreOctets(e)
    ensures Decode(Encode(e)) == Ok(e) <==> WellFormed(e)
  {
    hide *;
    if WellFormed(e) { DecodeUndoesEncode(e); }
    if Decode(Encode(e)) == Ok(e) { DecodedIsWellFormed(Encode(e), e); }
  }

  lemma ReencodingPreserves(json: Text, e: Envelope)
    requires Decode(json) == Ok(e)
    ensures AreOctets(e) && Decode(Encode(e)) == Ok(e)
  {
    hide *;
    DecodedIsWellFormed(json, e);
    DecodeUndoesEncode(e);
  }
}
