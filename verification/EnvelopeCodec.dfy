/** EncodeEnvelope and DecodeEnvelope as the program runs them, each proved equal to its specification. */
module EnvelopeCodec {
  import opened Basics
  import opened Utf8
  import opened JsonGrammar
  import opened JsonStrings
  import opened JsonValues
  import opened JsonValueReader
  import opened JsonObjects
  import opened Decimals
  import opened Timestamps
  import opened Envelope

  /** A quoted literal alone, white space after it allowed. */
  method DecodeString(raw: Text) returns (decoded: Option<Text>)
    ensures decoded == DecodeStringValue(raw)
  {
    hide LiteralAt, StringText, PiecesValue, SkipSpace;
    var ok, cursor, output := ParseString(raw, 0);
    if !ok { return None; }
    cursor := SkipWhitespace(raw, cursor);
    return if cursor == |raw| then Some(output) else None;
  }

  method ReadKind(raw: Text) returns (kind: Option<Kind>)
    ensures kind == ParseKind(raw)
  {
    hide DecodeStringValue, KindText;
    var decoded := DecodeString(raw);
    if decoded.None? { return None; }
    if decoded.value == KindText(Request) { return Some(Request); }
    if decoded.value == KindText(Response) { return Some(Response); }
    if decoded.value == KindText(Event) { return Some(Event); }
    return None;
  }

  method HasOnlyKnown(fields: Fields) returns (known: bool)
    ensures known == OnlyKnown(fields)
  {
    hide Keyword;
    var remaining := fields.Keys;
    while remaining != {}
      invariant remaining <= fields.Keys
      invariant forall k | k in fields :: k in remaining || exists i | 0 <= i < 7 :: k == Keyword(i)
      decreases |remaining|
    {
      var field :| field in remaining;
      KnownField(field);
      if field != Keyword(0) && field != Keyword(1) && field != Keyword(2) && field != Keyword(3) &&
         field != Keyword(4) && field != Keyword(5) && field != Keyword(6) {
        return false;
      }
      remaining := remaining - {field};
    }
    return true;
  }

  lemma KnownField(name: Text)
    ensures (exists i | 0 <= i < 7 :: name == Keyword(i)) <==>
            || name == Keyword(0) || name == Keyword(1) || name == Keyword(2) || name == Keyword(3)
            || name == Keyword(4) || name == Keyword(5) || name == Keyword(6)
  {
    hide Keyword;
  }

  method CheckPayload(payload: Text) returns (valid: bool)
    ensures valid == IsPayload(payload)
  {
    hide SkipSpace, ObjectFields;
    var cursor := SkipWhitespace(payload, 0);
    if cursor >= |payload| || payload[cursor] != OPEN_BRACE { return false; }
    var ok, _ := ParseObject(payload);
    return ok;
  }

  method ReadId(fields: Fields) returns (id: Optional<Text>)
    ensures id == DecodeId(fields)
  {
    hide Keyword, DecodeStringValue, IsId;
    if Keyword(2) !in fields { return Absent; }
    var decoded := DecodeString(fields[Keyword(2)]);
    if decoded.None? || !IsId(decoded.value) { return Invalid; }
    return Present(decoded.value);
  }

  method ReadFields(fields: Fields) returns (result: Decoding)
    ensures result == DecodeFields(fields)
  {
    hide Keyword, DecodeStringValue, ParseKind, ParseSigned, ParseUnsigned, OnlyKnown, IsTimestamp, IsPayload, DecodeId;
    if Keyword(0) !in fields || Keyword(1) !in fields || Keyword(4) !in fields ||
       Keyword(5) !in fields || Keyword(6) !in fields { return Err(MalformedJson); }
    var version := ParseSigned(fields[Keyword(0)], INT32_MAX);
    if version.None? { return Err(MalformedJson); }
    if version.value != 1 { return Err(UnsupportedProtocol); }
    var kind := ReadKind(fields[Keyword(1)]);
    if kind.None? { return Err(MalformedJson); }
    var known := HasOnlyKnown(fields);
    if !known { return Err(MalformedJson); }
    var name := DecodeString(fields[Keyword(4)]);
    var timestamp := DecodeString(fields[Keyword(5)]);
    if name.None? || |name.value| == 0 || |name.value| > 64 || timestamp.None? { return Err(MalformedJson); }
    var timely := IsRfc3339Timestamp(timestamp.value);
    if !timely { return Err(MalformedJson); }
    var payload := fields[Keyword(6)];
    var valid := CheckPayload(payload);
    if !valid { return Err(MalformedJson); }
    var id := ReadId(fields);
    if id.Invalid? { return Err(MalformedJson); }
    var sequence := DecodeSequence(fields);
    if sequence.Invalid? { return Err(MalformedJson); }
    if kind.value != Event && (!id.Present? || sequence.Present?) { return Err(MalformedJson); }
    if kind.value == Event && (!sequence.Present? || id.Present?) { return Err(MalformedJson); }
    return Ok(Envelope(version.value, kind.value, ToOption(id), ToOption(sequence), name.value, timestamp.value,
      payload));
  }

  method DecodeEnvelope(json: bytes) returns (result: Decoding)
    ensures result == Decode(json)
  {
    hide Valid, ObjectFields, DecodeFields;
    var valid := IsValidUtf8(json);
    if !valid { return Err(MalformedJson); }
    var ok, fields := ParseObject(json);
    if !ok { return Err(MalformedJson); }
    result := ReadFields(fields);
  }

  /** Fields each after a comma. */
  function Listed(fields: seq<(Text, Text)>): Text {
    if fields == [] then [] else [COMMA] + FieldText(fields[0]) + Listed(fields[1..])
  }

  lemma {:induction false} ListedMore(fields: seq<(Text, Text)>, field: (Text, Text))
    ensures Listed(fields + [field]) == Listed(fields) + ([COMMA] + FieldText(field))
  {
    hide FieldText;
    if fields == [] {
      assert fields + [field] == [field] && [field][1..] == [];
      assert Listed([field]) == [COMMA] + FieldText(field) + Listed([]);
    } else {
      assert (fields + [field])[1..] == fields[1..] + [field];
      ListedMore(fields[1..], field);
    }
  }

  lemma {:induction false} JoinedIsListed(first: (Text, Text), rest: seq<(Text, Text)>)
    ensures Joined([first] + rest) == FieldText(first) + Listed(rest)
    decreases |rest|
  {
    hide FieldText;
    var fields := [first] + rest;
    assert fields[1..] == rest;
    if rest != [] {
      JoinedIsListed(rest[0], rest[1..]);
      assert [rest[0]] + rest[1..] == rest;
    }
  }

  /** The text so far is an open object with the fields of done after the first one. */
  ghost predicate Writing(json: Text, first: (Text, Text), done: seq<(Text, Text)>) {
    json == [OPEN_BRACE] + (FieldText(first) + Listed(done))
  }

  lemma WriteField(json: Text, first: (Text, Text), done: seq<(Text, Text)>, name: Text, value: Text)
    requires Writing(json, first, done)
    ensures Writing(json + [COMMA, QUOTE] + name + [QUOTE, COLON] + value, first, done + [(name, value)])
  {
    ListedMore(done, (name, value));
    hide Listed;
    assert [COMMA] + FieldText((name, value)) == [COMMA, QUOTE] + name + [QUOTE, COLON] + value;
    hide FieldText;
    Regroup(json, [COMMA, QUOTE], name, [QUOTE, COLON], value);
  }

  lemma Regroup(a: Text, b: Text, c: Text, d: Text, e: Text)
    ensures a + b + c + d + e == a + (b + c + d + e)
  {
  }

  lemma WriteString(json: Text, first: (Text, Text), done: seq<(Text, Text)>, name: Text, value: Text)
    requires Writing(json, first, done) && IsOctets(value)
    ensures Writing(json + [COMMA, QUOTE] + name + [QUOTE, COLON, QUOTE] + Escape(value) + [QUOTE], first,
              done + [(name, Quoted(value))])
  {
    WriteField(json, first, done, name, Quoted(value));
    hide Writing, Escape;
    assert json + [COMMA, QUOTE] + name + [QUOTE, COLON] + Quoted(value)
        == json + [COMMA, QUOTE] + name + [QUOTE, COLON, QUOTE] + Escape(value) + [QUOTE];
  }

  lemma WritingStarts(first: (Text, Text))
    ensures Writing([OPEN_BRACE, QUOTE] + first.0 + [QUOTE, COLON] + first.1, first, [])
  {
  }

  lemma WritingEnds(json: Text, e: Envelope, first: (Text, Text), done: seq<(Text, Text)>)
    requires Writing(json, first, done) && AreOctets(e) && WrittenFields(e) == [first] + done
    ensures json + [CLOSE_BRACE] == Encode(e)
  {
    hide FieldText, Listed, Joined, WrittenFields, AreOctets;
    JoinedIsListed(first, done);
  }

  method EncodeEnvelope(e: Envelope) returns (json: Text)
    requires AreOctets(e)
    ensures json == Encode(e)
  {
    hide Encode, Escape, Keyword, SignedDecimal, Decimal, KindText, Writing, Quoted, IsOctets;
    ghost var first := (Keyword(0), SignedDecimal(e.version));
    ghost var done: seq<(Text, Text)> := [];
    json := [OPEN_BRACE, QUOTE] + Keyword(0) + [QUOTE, COLON] + SignedDecimal(e.version);
    WritingStarts(first);
    WriteField(json, first, done, Keyword(1), [QUOTE] + KindText(e.kind) + [QUOTE]);
    json := json + [COMMA, QUOTE] + Keyword(1) + [QUOTE, COLON] + ([QUOTE] + KindText(e.kind) + [QUOTE]);
    done := done + [(Keyword(1), [QUOTE] + KindText(e.kind) + [QUOTE])];
    if e.id.Some? {
      json := WriteText(json, Keyword(2), e.id.value, first, done);
      done := done + [(Keyword(2), Quoted(e.id.value))];
    }
    if e.sequence.Some? {
      WriteField(json, first, done, Keyword(3), Decimal(e.sequence.value));
      json := json + [COMMA, QUOTE] + Keyword(3) + [QUOTE, COLON] + Decimal(e.sequence.value);
      done := done + [(Keyword(3), Decimal(e.sequence.value))];
    }
    json := WriteText(json, Keyword(4), e.name, first, done);
    done := done + [(Keyword(4), Quoted(e.name))];
    json := WriteText(json, Keyword(5), e.timestamp, first, done);
    done := done + [(Keyword(5), Quoted(e.timestamp))];
    var payload := if e.payload == [] then [OPEN_BRACE, CLOSE_BRACE] else e.payload;
    WriteField(json, first, done, Keyword(6), payload);
    json := json + [COMMA, QUOTE] + Keyword(6) + [QUOTE, COLON] + payload;
    done := done + [(Keyword(6), payload)];
    WritingEnds(json, e, first, done);
    json := json + [CLOSE_BRACE];
  }

  /** One string field, escaped. */
  method WriteText(json: Text, name: Text, value: Text, ghost first: (Text, Text), ghost done: seq<(Text, Text)>)
    returns (longer: Text)
    requires Writing(json, first, done) && IsOctets(value)
    ensures Writing(longer, first, done + [(name, Quoted(value))])
  {
    hide Writing, Escape, Quoted;
    WriteString(json, first, done, name, value);
    var escaped := EscapeJsonString(value);
    longer := json + [COMMA, QUOTE] + name + [QUOTE, COLON, QUOTE] + escaped + [QUOTE];
  }
}
