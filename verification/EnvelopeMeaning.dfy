/**
 * What DecodeEnvelope of native/selection-host/src/core/envelope.cpp makes of any text, said over the grammar: which
 * texts are envelopes and which one each is, and which of the others are of another protocol version.
 */
module EnvelopeMeaning {
  import opened Basics
  import opened Utf8
  import opened JsonGrammar
  import opened JsonStrings
  import opened JsonValues
  import opened JsonValueReader
  import opened JsonObjects
  import opened Decimals
  import opened Timestamps
  import opened Envelope
  import opened EnvelopeRoundTrip
  import opened EnvelopeDecoded

  // ----- Objects -----

  /** The text is one object with distinct decoded keys, and white space around it. */
  ghost predicate IsObjectText(json: Text, before: Text, ms: Members, after: Text) {
    && IsPad(Native, before) && IsPad(Native, after) && AreNative(ms) && Distinct(Keys(ms))
    && json == before + ([OPEN_BRACE] + MembersText(ms)) + after
  }

  /** The value under a decoded key. */
  function ValueOf(ms: Members, key: Text): Option<Json>
    requires AreNative(ms)
  {
    if ms.NoMember? then None else if PiecesValue(ms.key) == key then Some(ms.value) else ValueOf(ms.rest, key)
  }

  lemma {:induction false} FieldIsText(ms: Members, key: Text)
    requires AreNative(ms) && Distinct(Keys(ms))
    ensures key in FieldMap(ms) <==> ValueOf(ms, key).Some?
    ensures ValueOf(ms, key).Some? ==>
              IsJson(Native, ValueOf(ms, key).value, MAX_DEPTH) && FieldMap(ms)[key] == Flatten(ValueOf(ms, key).value)
    decreases ms
  {
    hide PiecesValue, Flatten, Distinct, IsJson, ArePieces, IsPad;
    if ms.Member? {
      DistinctCons(PiecesValue(ms.key), Keys(ms.rest));
      FieldIsText(ms.rest, key);
    }
  }

  // ----- Values -----

  predicate IsText(v: Option<Json>, text: Text) {
    v.Some? && v.value.Str? && ArePieces(Native, v.value.pieces) && PiecesValue(v.value.pieces) == text
  }

  /** The decimal form of an integer; zero may carry a sign. */
  predicate IsDecimalOf(text: Text, n: int) {
    text == (if n < 0 then [MINUS] + Decimal(-n) else Decimal(n)) || (n == 0 && text == [MINUS] + Decimal(0))
  }

  lemma StringValue(v: Json)
    requires IsJson(Native, v, MAX_DEPTH)
    ensures DecodeStringValue(Flatten(v)) == if v.Str? then Some(PiecesValue(v.pieces)) else None
  {
    var raw := Flatten(v);
    if v.Str? {
      hide LiteralAt, StringText, PiecesValue, SkipSpace, ArePieces;
      assert raw[0..|raw|] == raw;
      LiteralComplete(raw, 0, v.pieces);
      SkipPad(raw, |raw|, []);
    } else {
      FlattenStarts(v, MAX_DEPTH);
      NoQuote(v);
    }
  }

  lemma NoQuote(v: Json)
    requires IsJson(Native, v, MAX_DEPTH) && !v.Str? && |Flatten(v)| > 0
    ensures Flatten(v)[0] != QUOTE
  {
    if v.Num? { NumberShape(v.number); }
  }

  lemma {:induction false} WholeIsDecimal(w: Text)
    requires IsWhole(w)
    ensures w == Decimal(DigitsValue(w))
    decreases |w|
  {
    if |w| > 1 {
      var n := |w| - 1;
      WholeIsDecimal(w[..n]);
      DecimalReadsBack(DigitsValue(w[..n]));
      assert w == w[..n] + [w[n]];
      assert DigitsValue(w[..n]) > 0;
    } else {
      assert w[..0] == [];
      assert w == [w[0]];
    }
  }

  lemma TailIsNoDigit(n: Number)
    requires IsNumber(n)
    ensures var t := TailText(n.frac, n.scale); t != [] ==> !IsDigit(t[0])
  {
    if n.frac != [] { assert TailText(n.frac, n.scale)[0] == POINT; }
  }

  /** A value whose text is digits, or a minus and digits, is a whole number without leading zeros. */
  lemma DigitsAreWhole(v: Json, sign: Text)
    requires IsJson(Native, v, MAX_DEPTH) && (sign == [] || sign == [MINUS]) && sign <= Flatten(v)
    requires |Flatten(v)| > |sign| && AreDigits(Flatten(v)[|sign|..])
    ensures IsWhole(Flatten(v)[|sign|..])
  {
    var raw := Flatten(v);
    assert sign != [] ==> raw[0] == sign[0];
    assert raw[|sign|..][0] == raw[|sign|];
    StartsNumber(v);
    var n := v.number;
    NumberShape(n);
    TailIsNoDigit(n);
    var t := TailText(n.frac, n.scale);
    assert raw == SignText(n.negative) + (n.whole + t);
    assert n.negative <==> sign == [MINUS];
    assert raw[|sign|..] == n.whole + t;
    if t != [] { After(n.whole, t); }
    assert n.whole + [] == n.whole;
  }

  lemma After(w: Text, t: Text)
    requires t != []
    ensures |w| < |w + t| && (w + t)[|w|] == t[0]
  {
  }

  lemma StartsNumber(v: Json)
    requires IsJson(Native, v, MAX_DEPTH) && Flatten(v) != [] && (IsDigit(Flatten(v)[0]) || Flatten(v)[0] == MINUS)
    ensures v.Num? && IsNumber(v.number) && (v.number.negative <==> Flatten(v)[0] == MINUS)
  {
    if v.Num? { assert v.number.whole[0] != MINUS; }
  }

  lemma UnsignedValue(v: Json, max: nat, n: nat)
    requires IsJson(Native, v, MAX_DEPTH)
    ensures ParseUnsigned(Flatten(v), max) == Some(n) <==> Flatten(v) == Decimal(n) && n <= max
  {
    var raw := Flatten(v);
    assert raw[0..] == raw;
    hide Flatten, IsJson, DigitsValue, Decimal, IsWhole;
    if raw != [] && AreDigits(raw) {
      DigitsAreWhole(v, []);
      WholeIsDecimal(raw);
    }
    DecimalReadsBack(n);
  }

  lemma SignedValue(v: Json, max: nat, n: int)
    requires IsJson(Native, v, MAX_DEPTH)
    ensures ParseSigned(Flatten(v), max) == Some(n) <==> IsDecimalOf(Flatten(v), n) && n + max + 1 >= 0 && n <= max
  {
    FlattenStarts(v, MAX_DEPTH);
    hide *;
    if Flatten(v)[0] == MINUS { NegativeValue(v, max, n); } else { PositiveValue(v, max, n); }
  }

  lemma PositiveValue(v: Json, max: nat, n: int)
    requires IsJson(Native, v, MAX_DEPTH) && Flatten(v) != [] && Flatten(v)[0] != MINUS
    ensures ParseSigned(Flatten(v), max) == Some(n) <==> IsDecimalOf(Flatten(v), n) && n + max + 1 >= 0 && n <= max
  {
    hide Flatten, IsJson, Decimal, ParseUnsigned;
    NoMinus(0);
    if n < 0 { NoMinus(-n); } else { UnsignedValue(v, max, n); }
  }

  lemma NegativeValue(v: Json, max: nat, n: int)
    requires IsJson(Native, v, MAX_DEPTH) && Flatten(v) != [] && Flatten(v)[0] == MINUS
    ensures ParseSigned(Flatten(v), max) == Some(n) <==> IsDecimalOf(Flatten(v), n) && n + max + 1 >= 0 && n <= max
  {
    var raw := Flatten(v);
    hide Flatten, IsJson, Decimal, DigitsValue, IsWhole;
    assert raw == [MINUS] + raw[1..];
    if raw[1..] != [] && AreDigits(raw[1..]) {
      DigitsAreWhole(v, [MINUS]);
      WholeIsDecimal(raw[1..]);
    }
    if n <= 0 {
      DecimalReadsBack(-n);
      assert ([MINUS] + Decimal(-n))[1..] == Decimal(-n);
    } else {
      NoMinus(n);
    }
  }

  lemma NoMinus(m: nat)
    ensures Decimal(m)[0] != MINUS && ([MINUS] + Decimal(m))[0] == MINUS && |Decimal(m)| > 0
  {
    hide Decimal;
    assert IsDigit(Decimal(m)[0]);
  }

  lemma PayloadValue(v: Json)
    requires IsJson(Native, v, MAX_DEPTH)
    ensures v.Obj? ==> AreNative(v.members)
    ensures IsPayload(Flatten(v)) <==> v.Obj? && Distinct(Keys(v.members))
  {
    if v.Obj? { ObjectIsNative(v.members); }
    hide *;
    if IsPayload(Flatten(v)) {
      PayloadIsUniqueObject(v);
      UniqueParts(Flatten(v), v.members);
    }
    if v.Obj? && Distinct(Keys(v.members)) {
      UniqueJoins(v.members);
      PayloadReadsBack(Flatten(v), v.members);
    }
  }

  lemma ObjectIsNative(ms: Members)
    requires IsJson(Native, Obj(ms), MAX_DEPTH)
    ensures AreNative(ms)
  {
    hide AreMembers;
    MembersWithMoreRoom(ms, MAX_DEPTH - 1);
  }

  lemma UniqueParts(payload: Text, ms: Members)
    requires IsUniqueObject(payload, ms)
    ensures AreNative(ms) && Distinct(Keys(ms))
  {
    hide Flatten, IsJson, AreMembers, Distinct;
  }

  lemma UniqueJoins(ms: Members)
    requires IsJson(Native, Obj(ms), MAX_DEPTH) && AreNative(ms) && Distinct(Keys(ms))
    ensures IsUniqueObject(Flatten(Obj(ms)), ms)
  {
    hide Flatten, IsJson, AreMembers, Distinct;
  }

  // ----- Which object is which envelope -----

  predicate IsIdOf(v: Option<Json>, id: Option<Text>) {
    if v.None? then id.None? else id.Some? && IsText(v, id.value) && IsId(id.value)
  }

  predicate IsSequenceOf(v: Option<Json>, n: Option<nat>) {
    if v.None? then n.None? else n.Some? && Flatten(v.value) == Decimal(n.value) && n.value < 0x1_0000_0000_0000_0000
  }

  predicate IsPayloadOf(v: Option<Json>, payload: Text) {
    && v.Some? && v.value.Obj? && payload == Flatten(v.value)
    && AreNative(v.value.members) && Distinct(Keys(v.value.members))
  }

  lemma AlnumIs(c: char)
    ensures IsAlnum(c as int) <==> IsAlphanumeric(c)
  {
    AlphanumericsAre(c);
    hide IsAlphanumeric;
  }

  lemma TextIsId(text: string)
    ensures IsId(Ascii(text)) <==> IsIdentifier(text)
  {
    hide IsAlnum, IsAlphanumeric;
    forall c ensures IsAlnum(c as int) <==> IsAlphanumeric(c) { AlnumIs(c); }
    var id := Ascii(text);
    if |text| >= 1 {
      assert forall k | 1 <= k < |text| :: text[1..][k - 1] == text[k] && text[k] in text[1..];
    }
  }

  lemma IdIsText(id: Text) returns (text: string)
    requires IsId(id)
    ensures id == Ascii(text)
  {
    forall k | 0 <= k < |id| ensures 0 <= id[k] < 128 {}
    text := seq(|id|, k requires 0 <= k < |id| => id[k] as char);
  }

  /** The ids taken are exactly the identifiers, octet for octet. */
  lemma IdsAreIdentifiers(id: Text)
    ensures IsId(id) <==> exists text :: id == Ascii(text) && IsIdentifier(text)
  {
    hide IsId, IsIdentifier, Ascii;
    if IsId(id) {
      var text := IdIsText(id);
      TextIsId(text);
    }
    forall text | id == Ascii(text) && IsIdentifier(text) ensures IsId(id) { TextIsId(text); }
  }

  predicate AreFieldNames(keys: seq<Text>) {
    forall k | k in keys ::
      k in [Ascii("v"), Ascii("kind"), Ascii("id"), Ascii("seq"), Ascii("method"), Ascii("timestamp"), Ascii("payload")]
  }

  /** The object is the envelope e: seven names and no other, and under each what e says. */
  predicate Means(ms: Members, e: Envelope)
    requires AreNative(ms)
  {
    var version, payload := ValueOf(ms, Ascii("v")), ValueOf(ms, Ascii("payload"));
    && AreFieldNames(Keys(ms)) && e.version == 1 && version.Some? && IsDecimalOf(Flatten(version.value), 1)
    && IsText(ValueOf(ms, Ascii("kind")), Ascii(if e.kind == Request then "request"
       else if e.kind == Response then "response"
                                                else "event"))
    && IsText(ValueOf(ms, Ascii("method")), e.name) && 1 <= |e.name| <= 64
    && IsText(ValueOf(ms, Ascii("timestamp")), e.timestamp) && IsTimestamp(e.timestamp)
    && IsPayloadOf(payload, e.payload)
    && IsIdOf(ValueOf(ms, Ascii("id")), e.id) && IsSequenceOf(ValueOf(ms, Ascii("seq")), e.sequence)
    && (if e.kind == Event then e.id.None? && e.sequence.Some? else e.id.Some? && e.sequence.None?)
  }

  predicate IsOtherVersion(n: int) {
    -0x8000_0000 <= n < 0x8000_0000 && n != 1
  }

  /** All five required names are there, and the version is a 32-bit integer other than 1. */
  ghost predicate HasOtherVersion(ms: Members)
    requires AreNative(ms)
  {
    && Ascii("v") in Keys(ms) && Ascii("kind") in Keys(ms) && Ascii("method") in Keys(ms)
    && Ascii("timestamp") in Keys(ms) && Ascii("payload") in Keys(ms)
    && var version := ValueOf(ms, Ascii("v"));
       version.Some? && exists n: int :: IsDecimalOf(Flatten(version.value), n) && IsOtherVersion(n)
  }

  lemma Names()
    ensures Keyword(0) == Ascii("v") && Keyword(1) == Ascii("kind") && Keyword(2) == Ascii("id")
            && Keyword(3) == Ascii("seq")
    ensures Keyword(4) == Ascii("method") && Keyword(5) == Ascii("timestamp") && Keyword(6) == Ascii("payload")
  {
    hide Ascii;
  }

  /** The raw field under a key is the text of the value under it. */
  predicate IsField(fields: Fields, ms: Members, key: Text)
    requires AreNative(ms)
  {
    var v := ValueOf(ms, key);
    && (key in fields <==> v.Some?) && (key in fields <==> key in Keys(ms))
    && (v.Some? ==> IsJson(Native, v.value, MAX_DEPTH) && fields[key] == Flatten(v.value))
  }

  ghost predicate AreTexts(fields: Fields, ms: Members)
    requires AreNative(ms)
  {
    forall key :: IsField(fields, ms, key)
  }

  lemma FieldsAreTexts(ms: Members)
    requires AreNative(ms) && Distinct(Keys(ms))
    ensures AreTexts(FieldMap(ms), ms)
  {
    forall key ensures IsField(FieldMap(ms), ms, key) {
      FieldIsText(ms, key);
      hide Flatten, IsJson, ValueOf, AreNative, Keys, Distinct;
    }
  }

  lemma TextValue(v: Json, text: Text)
    requires IsJson(Native, v, MAX_DEPTH)
    ensures DecodeStringValue(Flatten(v)) == Some(text) <==> IsText(Some(v), text)
  {
    StringValue(v);
    assert v.Str? ==> ArePieces(Native, v.pieces);
    hide DecodeStringValue, Flatten, PiecesValue, ArePieces, IsJson;
  }

  lemma KindValue(v: Json, kind: Kind)
    requires IsJson(Native, v, MAX_DEPTH)
    ensures ParseKind(Flatten(v)) == Some(kind) <==> IsText(Some(v), KindText(kind))
  {
    KindsArePlain(kind);
    hide KindText, DecodeStringValue, Flatten, IsText, IsJson, IsPlain, IsOctets, Valid;
    TextValue(v, KindText(Request));
    TextValue(v, KindText(Response));
    TextValue(v, KindText(Event));
  }

  lemma IdValue(fields: Fields, ms: Members, id: Option<Text>)
    requires AreNative(ms) && AreTexts(fields, ms)
    ensures !DecodeId(fields).Invalid? && ToOption(DecodeId(fields)) == id <==> IsIdOf(ValueOf(ms, Ascii("id")), id)
  {
    Names();
    hide Keyword, DecodeStringValue, Flatten, IsText, IsJson, ValueOf, IsId, Ascii;
    var v := ValueOf(ms, Ascii("id"));
    assert IsField(fields, ms, Ascii("id"));
    if v.Some? {
      if id.Some? { TextValue(v.value, id.value); }
      var decoded := DecodeStringValue(Flatten(v.value));
      if decoded.Some? { TextValue(v.value, decoded.value); }
    }
  }

  lemma SequenceValue(fields: Fields, ms: Members, n: Option<nat>)
    requires AreNative(ms) && AreTexts(fields, ms)
    ensures !DecodeSequence(fields).Invalid? && ToOption(DecodeSequence(fields)) == n
       <==> IsSequenceOf(ValueOf(ms, Ascii("seq")), n)
  {
    Names();
    hide Keyword, Flatten, IsJson, ValueOf, Ascii, ParseUnsigned, Decimal;
    var v := ValueOf(ms, Ascii("seq"));
    assert IsField(fields, ms, Ascii("seq"));
    if v.Some? {
      if n.Some? { UnsignedValue(v.value, UINT64_MAX, n.value); }
      var parsed := ParseUnsigned(Flatten(v.value), UINT64_MAX);
      if parsed.Some? { UnsignedValue(v.value, UINT64_MAX, parsed.value); }
    }
  }

  /** What the checks of DecodeEnvelope come to, on the texts of the fields. */
  predicate Passes(fields: Fields, e: Envelope) {
    && HasRequired(fields) && OnlyKnown(fields)
    && ParseSigned(fields[Keyword(0)], INT32_MAX) == Some(1) && e.version == 1
    && ParseKind(fields[Keyword(1)]) == Some(e.kind)
    && DecodeStringValue(fields[Keyword(4)]) == Some(e.name) && 1 <= |e.name| <= 64
    && DecodeStringValue(fields[Keyword(5)]) == Some(e.timestamp) && IsTimestamp(e.timestamp)
    && fields[Keyword(6)] == e.payload && IsPayload(e.payload)
    && !DecodeId(fields).Invalid? && ToOption(DecodeId(fields)) == e.id
    && !DecodeSequence(fields).Invalid? && ToOption(DecodeSequence(fields)) == e.sequence
    && KindAgrees(e.kind, e.id, e.sequence)
  }

  lemma PassesDecodes(fields: Fields, e: Envelope)
    ensures DecodeFields(fields) == Ok(e) <==> Passes(fields, e)
  {
    hide Keyword, DecodeStringValue, ParseKind, ParseSigned, OnlyKnown, IsTimestamp, IsPayload, DecodeId,
         DecodeSequence,
         KindAgrees;
  }

  lemma OtherVersionDecodes(fields: Fields)
    ensures DecodeFields(fields) == Err(UnsupportedProtocol) <==>
            HasRequired(fields) && ParseSigned(fields[Keyword(0)], INT32_MAX).Some?
            && ParseSigned(fields[Keyword(0)], INT32_MAX) != Some(1)
  {
    hide Keyword, DecodeStringValue, ParseKind, ParseSigned, OnlyKnown, IsTimestamp, IsPayload, DecodeId,
         DecodeSequence,
         KindAgrees;
  }

  lemma KnownNames(fields: Fields, ms: Members)
    requires AreNative(ms) && AreTexts(fields, ms)
    ensures OnlyKnown(fields) <==> AreFieldNames(Keys(ms))
    ensures HasRequired(fields) <==>
            && Ascii("v") in Keys(ms) && Ascii("kind") in Keys(ms) && Ascii("method") in Keys(ms)
            && Ascii("timestamp") in Keys(ms) && Ascii("payload") in Keys(ms)
    ensures Ascii("v") in fields <==> Ascii("v") in Keys(ms)
  {
    Names();
    hide Ascii, Flatten, IsJson, ValueOf, Keys, AreNative, Keyword;
    forall k ensures k in fields <==> k in Keys(ms) { assert IsField(fields, ms, k); }
    NameList();
  }

  lemma NameList()
    ensures forall k: Text :: (exists i | 0 <= i < 7 :: k == Keyword(i)) <==>
              k in [Keyword(0), Keyword(1), Keyword(2), Keyword(3), Keyword(4), Keyword(5), Keyword(6)]
  {
    hide Keyword;
  }

  /** A value is there and has this text. */
  lemma UnderKey(fields: Fields, ms: Members, key: Text) returns (v: Json)
    requires AreNative(ms) && AreTexts(fields, ms) && key in fields
    ensures ValueOf(ms, key) == Some(v) && IsJson(Native, v, MAX_DEPTH) && fields[key] == Flatten(v)
  {
    assert IsField(fields, ms, key);
    v := ValueOf(ms, key).value;
  }

  lemma RequiredValues(fields: Fields, ms: Members, e: Envelope)
    requires AreNative(ms) && AreTexts(fields, ms) && HasRequired(fields)
    ensures ParseSigned(fields[Keyword(0)], INT32_MAX) == Some(1) <==> IsDecimalOf(fields[Keyword(0)], 1)
    ensures ParseKind(fields[Keyword(1)]) == Some(e.kind) <==> IsText(ValueOf(ms, Keyword(1)), KindText(e.kind))
    ensures DecodeStringValue(fields[Keyword(4)]) == Some(e.name) <==> IsText(ValueOf(ms, Keyword(4)), e.name)
    ensures DecodeStringValue(fields[Keyword(5)]) == Some(e.timestamp) <==> IsText(ValueOf(ms, Keyword(5)), e.timestamp)
    ensures fields[Keyword(6)] == e.payload && IsPayload(e.payload) <==> IsPayloadOf(ValueOf(ms, Keyword(6)), e.payload)
  {
    hide *;
    RequiredKeys(fields);
    var version := UnderKey(fields, ms, Keyword(0));
    SignedValue(version, INT32_MAX, 1);
    var kind := UnderKey(fields, ms, Keyword(1));
    KindValue(kind, e.kind);
    var name := UnderKey(fields, ms, Keyword(4));
    TextValue(name, e.name);
    var timestamp := UnderKey(fields, ms, Keyword(5));
    TextValue(timestamp, e.timestamp);
    var payload := UnderKey(fields, ms, Keyword(6));
    PayloadText(payload, e.payload);
  }

  lemma RequiredKeys(fields: Fields)
    requires HasRequired(fields)
    ensures Keyword(0) in fields && Keyword(1) in fields && Keyword(4) in fields && Keyword(5) in fields
            && Keyword(6) in fields
    ensures 1 <= INT32_MAX
  {
    hide Keyword;
  }

  lemma PayloadText(v: Json, payload: Text)
    requires IsJson(Native, v, MAX_DEPTH)
    ensures Flatten(v) == payload && IsPayload(payload) <==> IsPayloadOf(Some(v), payload)
  {
    PayloadValue(v);
    hide Flatten, IsJson, IsPayload, AreNative, Keys, Distinct;
  }

  lemma ObjectDecodes(fields: Fields, ms: Members, e: Envelope)
    requires AreNative(ms) && AreTexts(fields, ms)
    ensures DecodeFields(fields) == Ok(e) <==> Means(ms, e)
  {
    hide *;
    PassesDecodes(fields, e);
    KnownNames(fields, ms);
    IdValue(fields, ms, e.id);
    SequenceValue(fields, ms, e.sequence);
    if Means(ms, e) { MeansRequired(fields, ms, e); }
    if Passes(fields, e) { PassesRequired(fields, e); }
    if HasRequired(fields) {
      RequiredValues(fields, ms, e);
      RequiredKeys(fields);
      var _ := UnderKey(fields, ms, Keyword(0));
      PassesMeans(fields, ms, e);
    }
  }

  lemma PassesRequired(fields: Fields, e: Envelope)
    requires Passes(fields, e)
    ensures HasRequired(fields)
  {
    hide HasRequired;
  }

  lemma PassesMeans(fields: Fields, ms: Members, e: Envelope)
    requires AreNative(ms) && HasRequired(fields) && (OnlyKnown(fields) <==> AreFieldNames(Keys(ms)))
    requires Keyword(0) in fields && Keyword(1) in fields && Keyword(4) in fields && Keyword(5) in fields
             && Keyword(6) in fields
    requires ParseSigned(fields[Keyword(0)], INT32_MAX) == Some(1) <==> IsDecimalOf(fields[Keyword(0)], 1)
    requires ValueOf(ms, Keyword(0)).Some? && Flatten(ValueOf(ms, Keyword(0)).value) == fields[Keyword(0)]
    requires ParseKind(fields[Keyword(1)]) == Some(e.kind) <==> IsText(ValueOf(ms, Keyword(1)), KindText(e.kind))
    requires DecodeStringValue(fields[Keyword(4)]) == Some(e.name) <==> IsText(ValueOf(ms, Keyword(4)), e.name)
    requires DecodeStringValue(fields[Keyword(5)]) == Some(e.timestamp) <==>
             IsText(ValueOf(ms, Keyword(5)), e.timestamp)
    requires fields[Keyword(6)] == e.payload && IsPayload(e.payload) <==>
             IsPayloadOf(ValueOf(ms, Keyword(6)), e.payload)
    requires !DecodeId(fields).Invalid? && ToOption(DecodeId(fields)) == e.id <==>
             IsIdOf(ValueOf(ms, Ascii("id")), e.id)
    requires !DecodeSequence(fields).Invalid? && ToOption(DecodeSequence(fields)) == e.sequence
        <==> IsSequenceOf(ValueOf(ms, Ascii("seq")), e.sequence)
    ensures Passes(fields, e) <==> Means(ms, e)
  {
    Names();
    hide Keyword, DecodeStringValue, ParseKind, ParseSigned, OnlyKnown, IsTimestamp, IsPayload, DecodeId,
         DecodeSequence,
         Ascii, ValueOf, Keys, AreNative, IsText, IsPayloadOf, IsIdOf, IsSequenceOf, IsDecimalOf, AreFieldNames,
         HasRequired, Flatten, ToOption;
  }

  lemma MeansRequired(fields: Fields, ms: Members, e: Envelope)
    requires AreNative(ms) && AreTexts(fields, ms) && Means(ms, e)
    ensures HasRequired(fields)
  {
    KnownNames(fields, ms);
    assert IsField(fields, ms, Ascii("v")) && IsField(fields, ms, Ascii("kind"))
           && IsField(fields, ms, Ascii("method"));
    assert IsField(fields, ms, Ascii("timestamp")) && IsField(fields, ms, Ascii("payload"));
    hide Ascii, Flatten, IsJson, ValueOf, Keys, AreNative, AreFieldNames, KindText, Decimal, IsDecimalOf, PiecesValue;
  }

  lemma OtherVersionValue(v: Json)
    requires IsJson(Native, v, MAX_DEPTH)
    ensures ParseSigned(Flatten(v), INT32_MAX).Some? && ParseSigned(Flatten(v), INT32_MAX) != Some(1)
       <==> exists n: int :: IsDecimalOf(Flatten(v), n) && IsOtherVersion(n)
  {
    hide ParseSigned, IsDecimalOf, Flatten, IsJson;
    var parsed := ParseSigned(Flatten(v), INT32_MAX);
    if parsed.Some? { SignedValue(v, INT32_MAX, parsed.value); }
    forall n: int | IsDecimalOf(Flatten(v), n) && IsOtherVersion(n) ensures parsed == Some(n) {
      SignedValue(v, INT32_MAX, n);
    }
  }

  lemma VersionDecodes(fields: Fields, ms: Members)
    requires AreNative(ms) && AreTexts(fields, ms)
    ensures DecodeFields(fields) == Err(UnsupportedProtocol) <==> HasOtherVersion(ms)
  {
    hide *;
    OtherVersionDecodes(fields);
    KnownNames(fields, ms);
    Names();
    if HasRequired(fields) {
      RequiredKeys(fields);
      var v := UnderKey(fields, ms, Keyword(0));
      OtherVersionValue(v);
    }
    OtherVersionIs(ms);
  }

  lemma OtherVersionIs(ms: Members)
    requires AreNative(ms)
    ensures HasOtherVersion(ms) <==>
            && Ascii("v") in Keys(ms) && Ascii("kind") in Keys(ms) && Ascii("method") in Keys(ms)
            && Ascii("timestamp") in Keys(ms) && Ascii("payload") in Keys(ms) && ValueOf(ms, Ascii("v")).Some?
            && exists n: int :: IsDecimalOf(Flatten(ValueOf(ms, Ascii("v")).value), n) && IsOtherVersion(n)
  {
    hide Ascii, ValueOf, Keys, AreNative, IsDecimalOf, IsOtherVersion, Flatten;
  }

  // ----- Any text -----

  /** The text is an envelope, and this one. */
  ghost predicate IsEnvelopeText(json: Text, e: Envelope) {
    Valid(json) && exists before, ms, after :: IsObjectText(json, before, ms, after) && Means(ms, e)
  }

  ghost predicate IsOtherVersionText(json: Text) {
    Valid(json) && exists before, ms, after :: IsObjectText(json, before, ms, after) && HasOtherVersion(ms)
  }

  /** An object text is read as the texts of its fields. */
  lemma ObjectIsRead(json: Text, before: Text, ms: Members, after: Text)
    requires IsObjectText(json, before, ms, after)
    ensures AreNative(ms) && ObjectFields(json) == Some(FieldMap(ms)) && AreTexts(FieldMap(ms), ms)
  {
    hide ObjectFields, FieldMap, AreNative, Keys, MembersText, IsPad, Distinct, AreTexts;
    ObjectComplete(json, before, ms, after);
    FieldsAreTexts(ms);
  }

  lemma DecodeIs(json: Text)
    ensures Decode(json) == (if !Valid(json) || ObjectFields(json).None? then Err(MalformedJson)
                             else DecodeFields(ObjectFields(json).value))
  {
    hide Valid, ObjectFields, DecodeFields;
  }

  /** One object text decides what a text decodes to. */
  lemma ReadDecodes(json: Text, before: Text, ms: Members, after: Text, e: Envelope)
    requires IsObjectText(json, before, ms, after) && Valid(json)
    ensures AreNative(ms) && (Decode(json) == Ok(e) <==> Means(ms, e))
    ensures Decode(json) == Err(UnsupportedProtocol) <==> HasOtherVersion(ms)
  {
    hide *;
    ObjectIsRead(json, before, ms, after);
    DecodeIs(json);
    ObjectDecodes(FieldMap(ms), ms, e);
    VersionDecodes(FieldMap(ms), ms);
  }

  lemma ReadIsObject(json: Text) returns (before: Text, ms: Members, after: Text)
    requires Valid(json) && ObjectFields(json).Some?
    ensures IsObjectText(json, before, ms, after)
  {
    hide Valid, ObjectFields, FieldMap, AreNative, Keys, MembersText, IsPad, Distinct;
    before, ms, after := ObjectSound(json);
  }

  /**
   * A text decodes to an envelope exactly when it is UTF-8 and one object with distinct keys that means this envelope.
   */
  lemma DecodesExactly(json: Text, e: Envelope)
    ensures Decode(json) == Ok(e) <==> IsEnvelopeText(json, e)
  {
    hide *;
    DecodeIs(json);
    if Valid(json) && ObjectFields(json).Some? {
      var before, ms, after := ReadIsObject(json);
      ReadDecodes(json, before, ms, after, e);
      Witness(json, before, ms, after, e);
    }
    EveryReading(json, e);
  }

  lemma Witness(json: Text, before: Text, ms: Members, after: Text, e: Envelope)
    requires Valid(json) && IsObjectText(json, before, ms, after)
    ensures AreNative(ms)
    ensures Means(ms, e) ==> IsEnvelopeText(json, e)
    ensures HasOtherVersion(ms) ==> IsOtherVersionText(json)
  {
    hide Valid, Means, HasOtherVersion, AreNative, Keys, MembersText, IsPad, Distinct;
  }

  lemma EveryReading(json: Text, e: Envelope)
    ensures IsEnvelopeText(json, e) ==> Decode(json) == Ok(e)
    ensures IsOtherVersionText(json) ==> Decode(json) == Err(UnsupportedProtocol)
  {
    hide Decode, Valid, Means, HasOtherVersion, AreNative, Keys, MembersText, IsPad, Distinct;
    if Valid(json) {
      forall before, ms, after | IsObjectText(json, before, ms, after)
        ensures AreNative(ms) && (Decode(json) == Ok(e) <==> Means(ms, e))
        ensures Decode(json) == Err(UnsupportedProtocol) <==> HasOtherVersion(ms)
      {
        ReadDecodes(json, before, ms, after, e);
      }
    }
  }

  /**
   * A text is refused as unsupported exactly when it is UTF-8 and one object with distinct keys that has the required
   * names and a 32-bit version other than 1. Every other text that is no envelope is refused as malformed.
   */
  lemma RefusesExactly(json: Text)
    ensures Decode(json) == Err(UnsupportedProtocol) <==> IsOtherVersionText(json)
    ensures Decode(json) == Err(MalformedJson) <==> !IsOtherVersionText(json) && forall e :: !IsEnvelopeText(json, e)
  {
    hide *;
    DecodeIs(json);
    var none := Envelope(1, Request, None, None, [], [], []);
    if Valid(json) && ObjectFields(json).Some? {
      var before, ms, after := ReadIsObject(json);
      ReadDecodes(json, before, ms, after, none);
      Witness(json, before, ms, after, none);
    }
    EveryReading(json, none);
    forall e ensures Decode(json) == Ok(e) <==> IsEnvelopeText(json, e) { DecodesExactly(json, e); }
    var d := Decode(json);
    match d {
      case Ok(e) => DecodesExactly(json, e);
      case Err(MalformedJson) =>
      case Err(UnsupportedProtocol) =>
    }
  }
}
