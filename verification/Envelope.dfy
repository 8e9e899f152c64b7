/** EncodeEnvelope and DecodeEnvelope of native/selection-host/src/core/envelope.cpp. */
module Envelope {
  import opened Basics
  import opened Utf8
  import opened JsonGrammar
  import opened JsonStrings
  import opened JsonValues
  import opened JsonValueReader
  import opened JsonObjects
  import opened Decimals
  import opened Timestamps

  const INT32_MAX: nat := 0x7FFF_FFFF
  const UINT64_MAX: nat := 0xFFFF_FFFF_FFFF_FFFF

  datatype Kind = Request | Response | Event

  datatype Envelope = Envelope(
    version: int, kind: Kind, id: Option<Text>, sequence: Option<nat>, name: Text, timestamp: Text, payload: Text)

  datatype ErrorCode = MalformedJson | UnsupportedProtocol

  datatype Decoding = Ok(envelope: Envelope) | Err(code: ErrorCode)

  function KindText(kind: Kind): Text {
    match kind
    case Request => Ascii("request")
    case Response => Ascii("response")
    case Event => Ascii("event")
  }

  // ----- Reading fields -----

  function DecodeStringValue(raw: Text): Option<Text> {
    var ps := LiteralAt(raw, 0);
    if ps.None? then None
    else
      LiteralSound(raw, 0);
      if SkipSpace(raw, |StringText(ps.value)|) == |raw| then Some(PiecesValue(ps.value)) else None
  }

  function ParseKind(raw: Text): Option<Kind> {
    var decoded := DecodeStringValue(raw);
    if decoded == Some(KindText(Request)) then Some(Request)
    else if decoded == Some(KindText(Response)) then Some(Response)
    else if decoded == Some(KindText(Event)) then Some(Event)
    else None
  }

  predicate IsAlnum(c: int) {
    IsDigit(c) || 0x41 <= c <= 0x5A || 0x61 <= c <= 0x7A
  }

  predicate IsId(id: Text) {
    && 1 <= |id| <= 128 && IsAlnum(id[0])
    && forall k | 0 <= k < |id| :: IsAlnum(id[k]) || id[k] == POINT || id[k] == 0x5F || id[k] == COLON || id[k] == MINUS
  }

  function Keyword(index: nat): Text
    requires index < 7
  {
    match index
    case 0 => Ascii("v")
    case 1 => Ascii("kind")
    case 2 => Ascii("id")
    case 3 => Ascii("seq")
    case 4 => Ascii("method")
    case 5 => Ascii("timestamp")
    case 6 => Ascii("payload")
  }

  /** All field names have different lengths, which is how they are told apart here. */
  lemma KeywordLengths()
    ensures |Keyword(0)| == 1 && |Keyword(1)| == 4 && |Keyword(2)| == 2 && |Keyword(3)| == 3
    ensures |Keyword(4)| == 6 && |Keyword(5)| == 9 && |Keyword(6)| == 7
  {
    hide Ascii;
  }

  predicate OnlyKnown(fields: Fields) {
    forall k | k in fields :: exists i | 0 <= i < 7 :: k == Keyword(i)
  }

  predicate HasRequired(fields: Fields) {
    && Keyword(0) in fields && Keyword(1) in fields && Keyword(4) in fields
    && Keyword(5) in fields && Keyword(6) in fields
  }

  /** Absent, or present and well-formed. */
  datatype Optional<+T> = Absent | Present(value: T) | Invalid

  function DecodeId(fields: Fields): Optional<Text> {
    if Keyword(2) !in fields then Absent
    else
      var id := DecodeStringValue(fields[Keyword(2)]);
      if id.Some? && IsId(id.value) then Present(id.value) else Invalid
  }

  function DecodeSequence(fields: Fields): Optional<nat> {
    if Keyword(3) !in fields then Absent
    else
      var seqNumber := ParseUnsigned(fields[Keyword(3)], UINT64_MAX);
      if seqNumber.Some? then Present(seqNumber.value) else Invalid
  }

  function ToOption<T>(o: Optional<T>): Option<T> {
    if o.Present? then Some(o.value) else None
  }

  predicate KindAgrees(kind: Kind, id: Option<Text>, sequence: Option<nat>) {
    if kind == Event then id.None? && sequence.Some? else id.Some? && sequence.None?
  }

  predicate IsName(name: Option<Text>) {
    name.Some? && 1 <= |name.value| <= 64
  }

  predicate IsPayload(payload: Text) {
    var i := SkipSpace(payload, 0);
    i < |payload| && payload[i] == OPEN_BRACE && ObjectFields(payload).Some?
  }

  function DecodeFields(fields: Fields): Decoding {
    if !HasRequired(fields) then Err(MalformedJson)
    else
      var version := ParseSigned(fields[Keyword(0)], INT32_MAX);
      var kind := ParseKind(fields[Keyword(1)]);
      var name := DecodeStringValue(fields[Keyword(4)]);
      var timestamp := DecodeStringValue(fields[Keyword(5)]);
      var payload := fields[Keyword(6)];
      var id, sequence := DecodeId(fields), DecodeSequence(fields);
      if version.None? then Err(MalformedJson)
      else if version.value != 1 then Err(UnsupportedProtocol)
      else if kind.None? || !OnlyKnown(fields) then Err(MalformedJson)
      else if !IsName(name) || timestamp.None? || !IsTimestamp(timestamp.value) then Err(MalformedJson)
      else if !IsPayload(payload) || id.Invalid? || sequence.Invalid? then Err(MalformedJson)
      else if !KindAgrees(kind.value, ToOption(id), ToOption(sequence)) then Err(MalformedJson)
      else Ok(Envelope(1, kind.value, ToOption(id), ToOption(sequence), name.value, timestamp.value, payload))
  }

  function Decode(json: Text): Decoding {
    if !Valid(json) then Err(MalformedJson)
    else
      var fields := ObjectFields(json);
      if fields.None? then Err(MalformedJson) else DecodeFields(fields.value)
  }

  // ----- Writing -----

  predicate AreOctets(e: Envelope) {
    (e.id.Some? ==> IsOctets(e.id.value)) && IsOctets(e.name) && IsOctets(e.timestamp)
  }

  function Quoted(s: Text): Text
    requires IsOctets(s)
  {
    [QUOTE] + Escape(s) + [QUOTE]
  }

  /** The fields written, in order, each with its raw value. */
  function WrittenFields(e: Envelope): seq<(Text, Text)>
    requires AreOctets(e)
  {
    [(Keyword(0), SignedDecimal(e.version)), (Keyword(1), [QUOTE] + KindText(e.kind) + [QUOTE])]
    + (if e.id.Some? then [(Keyword(2), Quoted(e.id.value))] else [])
    + (if e.sequence.Some? then [(Keyword(3), Decimal(e.sequence.value))] else [])
    + [(Keyword(4), Quoted(e.name)), (Keyword(5), Quoted(e.timestamp)),
       (Keyword(6), if e.payload == [] then [OPEN_BRACE, CLOSE_BRACE] else e.payload)]
  }

  function FieldText(field: (Text, Text)): Text {
    [QUOTE] + field.0 + [QUOTE, COLON] + field.1
  }

  function Joined(fields: seq<(Text, Text)>): Text {
    if fields == [] then []
    else FieldText(fields[0]) + ((if |fields| == 1 then [] else [COMMA]) + Joined(fields[1..]))
  }

  function Encode(e: Envelope): Text
    requires AreOctets(e)
  {
    [OPEN_BRACE] + Joined(WrittenFields(e)) + [CLOSE_BRACE]
  }

  // ----- Well-formed envelopes -----

  predicate IsUniqueObject(payload: Text, ms: Members) {
    && IsJson(Native, Obj(ms), MAX_DEPTH) && payload == Flatten(Obj(ms))
    && AreNative(ms) && Distinct(Keys(ms))
  }

  /** Version 1, an id or a number as the kind demands, UTF-8 throughout, and a payload that is a unique-key object. */
  ghost predicate WellFormed(e: Envelope) {
    && e.version == 1 && KindAgrees(e.kind, e.id, e.sequence)
    && (e.id.Some? ==> IsId(e.id.value)) && (e.sequence.Some? ==> e.sequence.value <= UINT64_MAX)
    && 1 <= |e.name| <= 64 && Valid(e.name) && IsTimestamp(e.timestamp)
    && Valid(e.payload) && exists ms :: IsUniqueObject(e.payload, ms)
  }
}
