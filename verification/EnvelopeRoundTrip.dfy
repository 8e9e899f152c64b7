/** Decoding undoes encoding, on exactly the well-formed envelopes. */
module EnvelopeRoundTrip {
  import opened Basics
  import opened Utf8
  import opened JsonGrammar
  import opened JsonStrings
  import opened JsonValues
  import opened JsonValueReader
  import opened JsonObjects
  import opened Decimals
  import opened Timestamps
  import opened Envelope

  // ----- A written object as a tree -----

  predicate IsPlain(key: Text) {
    forall k | 0 <= k < |key| :: 0x20 <= key[k] < 0x80 && key[k] != QUOTE && key[k] != BACKSLASH
  }

  predicate AreWritable(fs: seq<(Text, Json)>) {
    forall k | 0 <= k < |fs| :: IsPlain(fs[k].0) && IsJson(Native, fs[k].1, MAX_DEPTH)
  }

  function MembersOf(fs: seq<(Text, Json)>): Members
    requires AreWritable(fs)
  {
    if fs == [] then NoMember([])
    else Member([], EscapePieces(fs[0].0), [], [], fs[0].1, [], MembersOf(fs[1..]))
  }

  function RawFields(fs: seq<(Text, Json)>): (r: seq<(Text, Text)>)
    ensures |r| == |fs| && forall k | 0 <= k < |fs| :: r[k] == (fs[k].0, Flatten(fs[k].1))
  {
    seq(|fs|, k requires 0 <= k < |fs| => (fs[k].0, Flatten(fs[k].1)))
  }

  function MapOf(fields: seq<(Text, Text)>): Fields {
    if fields == [] then map[] else map[fields[0].0 := fields[0].1] + MapOf(fields[1..])
  }

  function Names(fields: seq<(Text, Text)>): (r: seq<Text>)
    ensures |r| == |fields| && forall k | 0 <= k < |fields| :: r[k] == fields[k].0
  {
    seq(|fields|, k requires 0 <= k < |fields| => fields[k].0)
  }

  lemma {:induction false} PlainEscape(key: Text)
    requires IsPlain(key)
    ensures Escape(key) == key
  {
    hide Escape, EscapePiece, PieceText;
    if key == [] {
      EscapeEnd();
    } else {
      PlainEscape(key[1..]);
      EscapeStep(key);
      EscapeCases(key[0]);
      assert key == [key[0]] + key[1..];
    }
  }

  lemma {:induction false} WrittenText(fs: seq<(Text, Json)>)
    requires AreWritable(fs)
    ensures MembersText(MembersOf(fs)) == Joined(RawFields(fs)) + [CLOSE_BRACE]
  {
    hide Flatten, IsJson, Escape, EscapePieces;
    if fs != [] {
      WrittenText(fs[1..]);
      PlainEscape(fs[0].0);
      OneField(fs[0].0, fs[0].1, MembersOf(fs[1..]));
      assert RawFields(fs)[1..] == RawFields(fs[1..]);
      JoinStep(RawFields(fs));
    }
  }

  lemma OneField(key: Text, value: Json, rest: Members)
    requires IsPlain(key) && Escape(key) == key
    ensures MembersText(Member([], EscapePieces(key), [], [], value, [], rest))
         == FieldText((key, Flatten(value))) + (Separator(rest.Member?) + MembersText(rest))
  {
    var ps := EscapePieces(key);
    var quoted := StringText(ps);
    assert quoted == [QUOTE] + key + [QUOTE];
    assert [QUOTE] + key + [QUOTE, COLON] == quoted + [COLON];
    hide StringText, Flatten, EscapePieces, Escape, Separator;
    NoPadding(quoted, Flatten(value), Separator(rest.Member?) + MembersText(rest));
  }

  lemma NoPadding(quoted: Text, value: Text, tail: Text)
    ensures [] + (quoted + ([] + ([COLON] + ([] + (value + ([] + tail)))))) == (quoted + [COLON] + value) + tail
  {
  }

  lemma JoinStep(fields: seq<(Text, Text)>)
    requires fields != []
    ensures Joined(fields) + [CLOSE_BRACE]
         == FieldText(fields[0]) + ((if |fields| == 1 then [] else [COMMA]) + (Joined(fields[1..]) + [CLOSE_BRACE]))
  {
    hide FieldText;
  }

  lemma {:induction false} WrittenMembers(fs: seq<(Text, Json)>)
    requires AreWritable(fs)
    ensures var ms := MembersOf(fs);
            AreNative(ms) && Keys(ms) == Names(RawFields(fs)) && FieldMap(ms) == MapOf(RawFields(fs))
  {
    hide Flatten, IsJson, EscapePieces, PiecesValue, IsPlain;
    if fs != [] {
      WrittenMembers(fs[1..]);
      PlainOctets(fs[0].0);
      EscapeReadsBack(fs[0].0);
      assert RawFields(fs)[1..] == RawFields(fs[1..]);
      assert Names(RawFields(fs)) == [fs[0].0] + Names(RawFields(fs[1..]));
    }
  }

  lemma PlainOctets(key: Text)
    requires IsPlain(key)
    ensures IsOctets(key)
  {
  }

  /** Reading a written object gives its fields, when no two names are the same. */
  lemma WrittenReadsBack(fs: seq<(Text, Json)>)
    requires AreWritable(fs) && Distinct(Names(RawFields(fs)))
    ensures ObjectFields([OPEN_BRACE] + Joined(RawFields(fs)) + [CLOSE_BRACE]) == Some(MapOf(RawFields(fs)))
  {
    WrittenText(fs);
    WrittenMembers(fs);
    hide *;
    var ms := MembersOf(fs);
    var s := [OPEN_BRACE] + Joined(RawFields(fs)) + [CLOSE_BRACE];
    NoSurroundings(Joined(RawFields(fs)));
    ObjectComplete(s, [], ms, []);
  }

  lemma NoSurroundings(joined: Text)
    ensures [OPEN_BRACE] + joined + [CLOSE_BRACE] == [] + ([OPEN_BRACE] + (joined + [CLOSE_BRACE])) + []
    ensures IsPad(Native, [])
  {
  }

  lemma {:induction false} Lookup(fields: seq<(Text, Text)>, i: nat)
    requires Distinct(Names(fields)) && i < |fields|
    ensures fields[i].0 in MapOf(fields) && MapOf(fields)[fields[i].0] == fields[i].1
  {
    var names := Names(fields);
    if i > 0 {
      DistinctTail(fields);
      Lookup(fields[1..], i - 1);
    } else {
      DistinctTail(fields);
      OnlyNames(fields[1..], fields[0].0);
    }
  }

  lemma DistinctTail(fields: seq<(Text, Text)>)
    requires fields != [] && Distinct(Names(fields))
    ensures Distinct(Names(fields[1..])) && fields[0].0 !in Names(fields[1..])
  {
    var names, rest := Names(fields), Names(fields[1..]);
    assert forall k {:trigger rest[k]} | 0 <= k < |rest| :: rest[k] == names[k + 1];
    assert names == [names[0]] + rest;
    DistinctCons(names[0], rest);
  }

  lemma {:induction false} OnlyNames(fields: seq<(Text, Text)>, key: Text)
    ensures key in MapOf(fields) <==> key in Names(fields)
  {
    if fields != [] {
      OnlyNames(fields[1..], key);
      assert Names(fields) == [fields[0].0] + Names(fields[1..]);
    }
  }

  // ----- What each written field reads back as -----

  lemma QuotedReadsBack(x: Text)
    requires IsOctets(x)
    ensures DecodeStringValue(Quoted(x)) == Some(x)
  {
    hide Escape, EscapePieces, LiteralAt, StringText, PiecesValue, SkipSpace;
    var raw := Quoted(x);
    assert raw[0..|raw|] == raw;
    EscapeRoundTrip(raw, 0, x);
    SkipPad(raw, |raw|, []);
  }

  lemma KindReadsBack(kind: Kind)
    ensures IsPlain(KindText(kind)) && IsOctets(KindText(kind))
            && [QUOTE] + KindText(kind) + [QUOTE] == Quoted(KindText(kind))
    ensures ParseKind(Quoted(KindText(kind))) == Some(kind)
  {
    KindsArePlain(kind);
    hide DecodeStringValue, KindText, Escape;
    PlainEscape(KindText(kind));
    QuotedReadsBack(KindText(kind));
  }

  predicate IsLowerCase(s: string) {
    forall k | 0 <= k < |s| :: 'a' <= s[k] <= 'z'
  }

  lemma LowerCaseIsPlain(s: string)
    requires IsLowerCase(s)
    ensures IsPlain(Ascii(s)) && IsOctets(Ascii(s)) && Valid(Ascii(s)) && |Ascii(s)| == |s|
  {
    var t := Ascii(s);
    assert forall k | 0 <= k < |t| :: t[k] == s[k] as int;
    hide DecodeOne, Ascii;
    AsciiIsValid(t);
  }

  lemma KindsArePlain(kind: Kind)
    ensures IsPlain(KindText(kind)) && IsOctets(KindText(kind)) && Valid(KindText(kind))
    ensures |KindText(Request)| == 7 && |KindText(Response)| == 8 && |KindText(Event)| == 5
  {
    hide IsPlain, IsOctets, Valid, Ascii;
    LowerCaseIsPlain("request");
    LowerCaseIsPlain("response");
    LowerCaseIsPlain("event");
  }

  lemma KeywordsArePlain(i: nat)
    requires i < 7
    ensures IsPlain(Keyword(i)) && Valid(Keyword(i))
  {
    hide IsPlain, IsOctets, Valid, Ascii;
    match i {
      case 0 => LowerCaseIsPlain("v");
      case 1 => LowerCaseIsPlain("kind");
      case 2 => LowerCaseIsPlain("id");
      case 3 => LowerCaseIsPlain("seq");
      case 4 => LowerCaseIsPlain("method");
      case 5 => LowerCaseIsPlain("timestamp");
      case 6 => LowerCaseIsPlain("payload");
    }
  }

  lemma AsciiIsValid(t: Text)
    requires forall k | 0 <= k < |t| :: 0 <= t[k] < 0x80
    ensures Valid(t)
  {
    AsciiRun(t, 0, |t|);
  }

  lemma PayloadReadsBack(payload: Text, ms: Members)
    requires IsUniqueObject(payload, ms)
    ensures IsPayload(payload) && payload != []
  {
    hide ObjectFields, MembersText, SkipSpace, Keys, AreMembers;
    assert payload == [] + ([OPEN_BRACE] + MembersText(ms)) + [];
    ObjectComplete(payload, [], ms, []);
    SkipPad(payload, 0, []);
  }

  // ----- The written fields as trees -----

  function StringTree(x: Text): Json
    requires IsOctets(x)
  {
    Str(EscapePieces(x))
  }

  lemma StringTreeIs(x: Text)
    requires IsOctets(x)
    ensures IsJson(Native, StringTree(x), MAX_DEPTH) && Flatten(StringTree(x)) == Quoted(x)
  {
    EscapeReadsBack(x);
  }

  function WrittenTrees(e: Envelope, ms: Members): seq<(Text, Json)>
    requires AreOctets(e)
  {
    KindsArePlain(e.kind);
    [(Keyword(0), DecimalJson(1)), (Keyword(1), StringTree(KindText(e.kind))),
     (if e.kind == Event then (Keyword(3), DecimalJson(if e.sequence.Some? then e.sequence.value else 0))
      else (Keyword(2), StringTree(if e.id.Some? then e.id.value else []))),
     (Keyword(4), StringTree(e.name)), (Keyword(5), StringTree(e.timestamp)), (Keyword(6), Obj(ms))]
  }

  lemma WrittenTreesFit(e: Envelope, ms: Members)
    requires AreOctets(e) && e.version == 1 && KindAgrees(e.kind, e.id, e.sequence) && IsUniqueObject(e.payload, ms)
    ensures AreWritable(WrittenTrees(e, ms)) && RawFields(WrittenTrees(e, ms)) == WrittenFields(e)
  {
    hide *;
    KindReadsBack(e.kind);
    DecimalIsJson(Native, 1, MAX_DEPTH);
    StringTreeIs(KindText(e.kind));
    OctetParts(e);
    StringTreeIs(e.name);
    StringTreeIs(e.timestamp);
    if e.id.Some? { StringTreeIs(e.id.value); }
    if e.sequence.Some? { DecimalIsJson(Native, e.sequence.value, MAX_DEPTH); }
    PayloadReadsBack(e.payload, ms);
    PayloadTree(e.payload, ms);
    forall i: nat | i < 7 ensures IsPlain(Keyword(i)) { KeywordsArePlain(i); }
    WrittenShape(e, ms);
  }

  lemma OctetParts(e: Envelope)
    requires AreOctets(e)
    ensures (e.id.Some? ==> IsOctets(e.id.value)) && IsOctets(e.name) && IsOctets(e.timestamp)
  {
  }

  lemma PayloadTree(payload: Text, ms: Members)
    requires IsUniqueObject(payload, ms)
    ensures IsJson(Native, Obj(ms), MAX_DEPTH) && Flatten(Obj(ms)) == payload
  {
  }

  lemma WrittenShape(e: Envelope, ms: Members)
    requires AreOctets(e) && e.version == 1 && KindAgrees(e.kind, e.id, e.sequence) && e.payload != []
    requires forall i: nat | i < 7 :: IsPlain(Keyword(i))
    requires IsJson(Native, Obj(ms), MAX_DEPTH) && Flatten(Obj(ms)) == e.payload
    requires IsJson(Native, DecimalJson(1), MAX_DEPTH) && Flatten(DecimalJson(1)) == Decimal(1)
    requires IsOctets(KindText(e.kind)) && [QUOTE] + KindText(e.kind) + [QUOTE] == Quoted(KindText(e.kind))
    requires forall x | IsOctets(x) && (x == KindText(e.kind) || x == e.name || x == e.timestamp || Some(x) == e.id)
             :: IsJson(Native, StringTree(x), MAX_DEPTH) && Flatten(StringTree(x)) == Quoted(x)
    requires e.sequence.Some? ==> IsJson(Native, DecimalJson(e.sequence.value), MAX_DEPTH)
                                  && Flatten(DecimalJson(e.sequence.value)) == Decimal(e.sequence.value)
    ensures AreWritable(WrittenTrees(e, ms)) && RawFields(WrittenTrees(e, ms)) == WrittenFields(e)
  {
    hide IsPlain, IsJson, Flatten, StringTree, DecimalJson, Decimal, Quoted, KindText, Keyword, IsOctets;
    var fs := WrittenTrees(e, ms);
    assert AreWritable(fs);
    hide AreWritable;
    assert RawFields(fs) == WrittenFields(e);
  }

  // ----- What the written fields decode to -----

  /** The field map carries e, and nothing else. */
  predicate Carries(fields: Fields, e: Envelope)
    requires AreOctets(e)
  {
    && HasRequired(fields) && OnlyKnown(fields)
    && fields[Keyword(0)] == SignedDecimal(e.version) && fields[Keyword(1)] == Quoted(KindOctets(e.kind))
    && (Keyword(2) in fields <==> e.id.Some?) && (e.id.Some? ==> fields[Keyword(2)] == Quoted(e.id.value))
    && (Keyword(3) in fields <==> e.sequence.Some?)
    && (e.sequence.Some? ==> fields[Keyword(3)] == Decimal(e.sequence.value))
    && fields[Keyword(4)] == Quoted(e.name) && fields[Keyword(5)] == Quoted(e.timestamp)
    && fields[Keyword(6)] == e.payload
  }

  function KindOctets(kind: Kind): (r: Text)
    ensures IsOctets(r)
  {
    KindsArePlain(kind);
    KindText(kind)
  }

  function SixNames(event: bool): seq<Text> {
    [Keyword(0), Keyword(1), Keyword(if event then 3 else 2), Keyword(4), Keyword(5), Keyword(6)]
  }

  lemma SixNamesDiffer(event: bool)
    ensures Distinct(SixNames(event))
    ensures Keyword(if event then 2 else 3) !in SixNames(event)
    ensures forall name | name in SixNames(event) :: exists i | 0 <= i < 7 :: name == Keyword(i)
  {
    KeywordLengths();
    hide Keyword;
  }

  lemma WrittenList(e: Envelope)
    requires AreOctets(e) && KindAgrees(e.kind, e.id, e.sequence) && e.payload != []
    ensures WrittenFields(e) == [
      (Keyword(0), SignedDecimal(e.version)), (Keyword(1), [QUOTE] + KindText(e.kind) + [QUOTE]),
      (if e.kind == Event then (Keyword(3), Decimal(e.sequence.value)) else (Keyword(2), Quoted(e.id.value))),
      (Keyword(4), Quoted(e.name)), (Keyword(5), Quoted(e.timestamp)), (Keyword(6), e.payload)]
    ensures Names(WrittenFields(e)) == SixNames(e.kind == Event)
  {
    hide Quoted, Keyword, SignedDecimal, Decimal, KindText, IsOctets;
  }

  lemma WrittenCarries(e: Envelope)
    requires AreOctets(e) && KindAgrees(e.kind, e.id, e.sequence) && e.payload != []
    ensures Distinct(Names(WrittenFields(e))) && Carries(MapOf(WrittenFields(e)), e)
  {
    hide Quoted, Keyword, SignedDecimal, Decimal, KindText, IsOctets, Distinct, MapOf, Names, WrittenFields, SixNames;
    var fs := WrittenFields(e);
    WrittenList(e);
    SixNamesDiffer(e.kind == Event);
    KindReadsBack(e.kind);
    forall i: nat | i < 6 ensures fs[i].0 in MapOf(fs) && MapOf(fs)[fs[i].0] == fs[i].1 { Lookup(fs, i); }
    assert fs[0].0 == Keyword(0) && fs[1].0 == Keyword(1) && fs[3].0 == Keyword(4) && fs[4].0 == Keyword(5)
           && fs[5].0 == Keyword(6);
    assert fs[2].0 == Keyword(if e.kind == Event then 3 else 2);
    OnlyNames(fs, Keyword(if e.kind == Event then 2 else 3));
    forall k | k in MapOf(fs) ensures exists i | 0 <= i < 7 :: k == Keyword(i) { OnlyNames(fs, k); }
  }

  lemma OneReadsBack()
    ensures ParseSigned(SignedDecimal(1), INT32_MAX) == Some(1)
  {
    DecimalReadsBack(1);
    hide DigitsValue;
  }

  lemma SequenceReadsBack(n: nat)
    requires n <= UINT64_MAX
    ensures ParseUnsigned(Decimal(n), UINT64_MAX) == Some(n)
  {
    DecimalReadsBack(n);
    hide Decimal, DigitsValue;
  }

  /** Every field reads back as the part of e it was written from. */
  predicate Reads(fields: Fields, e: Envelope) {
    && HasRequired(fields) && OnlyKnown(fields)
    && ParseSigned(fields[Keyword(0)], INT32_MAX) == Some(1) && e.version == 1
    && ParseKind(fields[Keyword(1)]) == Some(e.kind)
    && DecodeStringValue(fields[Keyword(4)]) == Some(e.name)
    && DecodeStringValue(fields[Keyword(5)]) == Some(e.timestamp)
    && fields[Keyword(6)] == e.payload
    && DecodeId(fields) == (if e.id.Some? then Present(e.id.value) else Absent)
    && DecodeSequence(fields) == (if e.sequence.Some? then Present(e.sequence.value) else Absent)
  }

  lemma ReadsDecodes(fields: Fields, e: Envelope)
    requires Reads(fields, e) && KindAgrees(e.kind, e.id, e.sequence) && IsPayload(e.payload)
    requires 1 <= |e.name| <= 64 && IsTimestamp(e.timestamp)
    ensures DecodeFields(fields) == Ok(e)
  {
    hide Keyword, DecodeStringValue, ParseKind, ParseSigned, OnlyKnown, IsTimestamp, IsPayload, DecodeId,
         DecodeSequence;
  }

  lemma CarriedId(fields: Fields, id: Option<Text>)
    requires (Keyword(2) in fields <==> id.Some?) && (id.Some? ==> IsId(id.value))
    requires id.Some? ==> IsOctets(id.value) && fields[Keyword(2)] == Quoted(id.value)
    ensures DecodeId(fields) == if id.Some? then Present(id.value) else Absent
  {
    hide Quoted, Keyword, DecodeStringValue, IsId, IsOctets;
    if id.Some? { QuotedReadsBack(id.value); }
  }

  lemma CarriedSequence(fields: Fields, sequence: Option<nat>)
    requires (Keyword(3) in fields <==> sequence.Some?) && (sequence.Some? ==> sequence.value <= UINT64_MAX)
    requires sequence.Some? ==> fields[Keyword(3)] == Decimal(sequence.value)
    ensures DecodeSequence(fields) == if sequence.Some? then Present(sequence.value) else Absent
  {
    hide Keyword, Decimal, ParseUnsigned;
    if sequence.Some? { SequenceReadsBack(sequence.value); }
  }

  lemma CarriedStrings(fields: Fields, e: Envelope)
    requires AreOctets(e) && Carries(fields, e) && e.version == 1
    ensures HasRequired(fields)
    ensures ParseSigned(fields[Keyword(0)], INT32_MAX) == Some(1) && ParseKind(fields[Keyword(1)]) == Some(e.kind)
    ensures DecodeStringValue(fields[Keyword(4)]) == Some(e.name)
            && DecodeStringValue(fields[Keyword(5)]) == Some(e.timestamp)
  {
    assert KindOctets(e.kind) == KindText(e.kind);
    hide Quoted, Keyword, SignedDecimal, KindText, IsOctets, DecodeStringValue, ParseKind, ParseSigned, OnlyKnown,
         KindOctets;
    OneReadsBack();
    KindReadsBack(e.kind);
    QuotedReadsBack(e.name);
    QuotedReadsBack(e.timestamp);
  }

  lemma CarriedReads(fields: Fields, e: Envelope)
    requires AreOctets(e) && Carries(fields, e) && e.version == 1
    requires (e.id.Some? ==> IsId(e.id.value)) && (e.sequence.Some? ==> e.sequence.value <= UINT64_MAX)
    ensures Reads(fields, e)
  {
    hide Quoted, Keyword, SignedDecimal, Decimal, IsOctets, DecodeStringValue, ParseKind, ParseSigned, DecodeId,
         DecodeSequence, OnlyKnown, IsId, KindOctets;
    CarriedStrings(fields, e);
    CarriedId(fields, e.id);
    CarriedSequence(fields, e.sequence);
  }

  lemma CarriedDecodes(fields: Fields, e: Envelope)
    requires AreOctets(e) && WellFormed(e) && Carries(fields, e)
    ensures DecodeFields(fields) == Ok(e)
  {
    hide AreOctets, Carries, Reads, DecodeFields, IsUniqueObject, IsPayload, Valid, IsId, IsTimestamp;
    CarriedReads(fields, e);
    var ms := WellFormedParts(e);
    PayloadReadsBack(e.payload, ms);
    ReadsDecodes(fields, e);
  }

  // ----- What is written is UTF-8 -----

  lemma {:induction false} EscapeConcat(a: Text, b: Text)
    requires IsOctets(a) && IsOctets(b)
    ensures IsOctets(a + b) && Escape(a + b) == Escape(a) + Escape(b)
  {
    hide Escape, EscapePiece, PieceText;
    if a == [] {
      assert a + b == b;
      EscapeEnd();
    } else {
      assert (a + b)[1..] == a[1..] + b;
      EscapeConcat(a[1..], b);
      EscapeStep(a);
      EscapeStep(a + b);
    }
  }

  /** Octets of multi-octet characters are never escaped. */
  lemma {:induction false} HighEscape(s: Text)
    requires forall k | 0 <= k < |s| :: 0x80 <= s[k] < 256
    ensures Escape(s) == s
  {
    hide Escape, EscapePiece, PieceText;
    if s == [] {
      EscapeEnd();
    } else {
      HighEscape(s[1..]);
      EscapeStep(s);
      EscapeCases(s[0]);
      assert s == [s[0]] + s[1..];
    }
  }

  lemma ScalarEscape(v: Scalar)
    ensures IsOctets(EncodeScalar(v)) && Valid(Escape(EncodeScalar(v)))
  {
    hide Escape, EscapePiece, PieceText, Valid;
    var e := EncodeScalar(v);
    assert forall k | 0 <= k < |e| :: (if v < 0x80 then 0 else 0x80) <= e[k] < 256;
    hide EncodeScalar;
    if v < 0x80 {
      EscapeStep(e);
      EscapeEnd();
      EscapeCases(v);
      AsciiIsValid(Escape(e));
    } else {
      HighEscape(e);
      ScalarPrefix(v, []);
      NothingIsValid();
      assert e + [] == e;
    }
  }

  lemma NothingIsValid()
    ensures Valid([])
  {
  }

  lemma {:induction false} ScalarsEscape(vs: seq<Scalar>)
    ensures IsOctets(EncodeAll(vs)) && Valid(Escape(EncodeAll(vs)))
  {
    hide Escape, EncodeScalar, Valid, IsOctets;
    if vs == [] {
      EscapeEnd();
      NothingIsValid();
      NothingIsOctets();
    } else {
      ScalarsEscape(vs[1..]);
      ScalarEscape(vs[0]);
      EscapeConcat(EncodeScalar(vs[0]), EncodeAll(vs[1..]));
      ValidConcat(Escape(EncodeScalar(vs[0])), Escape(EncodeAll(vs[1..])));
    }
  }

  lemma NothingIsOctets()
    ensures IsOctets([])
  {
  }

  /** Escaping keeps UTF-8, and UTF-8 is made of octets. */
  lemma EscapeKeepsUtf8(s: Text)
    requires Valid(s)
    ensures IsOctets(s) && Valid(Escape(s)) && Valid(Quoted(s))
  {
    hide Escape, DecodeOne, EncodeScalar;
    var vs := ValidIsEncoded(s, 0);
    assert s[0..] == s;
    ScalarsEscape(vs);
    assert Quoted(s) == [QUOTE] + Escape(s) + [QUOTE];
    hide Valid;
    AsciiIsValid([QUOTE]);
    ValidConcat([QUOTE], Escape(s));
    ValidConcat([QUOTE] + Escape(s), [QUOTE]);
  }

  predicate AllValid(fields: seq<(Text, Text)>) {
    forall k | 0 <= k < |fields| :: Valid(fields[k].0) && Valid(fields[k].1)
  }

  lemma FieldIsValid(field: (Text, Text))
    requires Valid(field.0) && Valid(field.1)
    ensures Valid(FieldText(field))
  {
    hide Valid;
    AsciiIsValid([QUOTE]);
    AsciiIsValid([QUOTE, COLON]);
    ValidConcat([QUOTE], field.0);
    ValidConcat([QUOTE] + field.0, [QUOTE, COLON]);
    ValidConcat([QUOTE] + field.0 + [QUOTE, COLON], field.1);
  }

  lemma {:induction false} JoinedIsValid(fields: seq<(Text, Text)>)
    requires AllValid(fields)
    ensures Valid(Joined(fields))
  {
    hide Valid, FieldText;
    NothingIsValid();
    if fields != [] {
      FieldIsValid(fields[0]);
      JoinedIsValid(fields[1..]);
      AsciiIsValid([COMMA]);
      var separator := if |fields| == 1 then [] else [COMMA];
      ValidConcat(separator, Joined(fields[1..]));
      ValidConcat(FieldText(fields[0]), separator + Joined(fields[1..]));
    }
  }

  lemma DigitsAreValid(d: Text)
    requires AreDigits(d)
    ensures Valid(d)
  {
    hide Valid;
    AsciiIsValid(d);
  }

  lemma IdIsValid(id: Text)
    requires IsId(id)
    ensures Valid(id)
  {
    hide Valid;
    assert forall k | 0 <= k < |id| :: 0 <= id[k] < 0x80;
    AsciiIsValid(id);
  }

  lemma TimestampIsValid(t: Text)
    requires IsTimestamp(t)
    ensures Valid(t)
  {
    hide Valid, IsTimestamp;
    TimestampIsAscii(t);
    AsciiIsValid(t);
  }

  lemma WellFormedOctets(e: Envelope)
    requires WellFormed(e)
    ensures AreOctets(e) && e.payload != []
  {
    hide IsOctets, Valid, IsTimestamp, IsId, Quoted, IsUniqueObject;
    EscapeKeepsUtf8(e.name);
    TimestampIsValid(e.timestamp);
    EscapeKeepsUtf8(e.timestamp);
    if e.id.Some? {
      IdIsValid(e.id.value);
      EscapeKeepsUtf8(e.id.value);
    }
    var ms :| IsUniqueObject(e.payload, ms);
    PayloadReadsBack(e.payload, ms);
  }

  lemma WrittenKindIsValid(kind: Kind)
    ensures Valid([QUOTE] + KindText(kind) + [QUOTE])
  {
    hide KindText, Valid, Quoted, IsPlain, IsOctets;
    KindsArePlain(kind);
    KindReadsBack(kind);
    EscapeKeepsUtf8(KindText(kind));
  }

  lemma WrittenTailIsValid(e: Envelope)
    requires WellFormed(e) && AreOctets(e)
    ensures if e.kind == Event then Valid(Decimal(e.sequence.value)) else Valid(Quoted(e.id.value))
    ensures Valid(Quoted(e.name)) && Valid(Quoted(e.timestamp)) && Valid(e.payload) && Valid(SignedDecimal(e.version))
  {
    hide IsOctets, Valid, IsTimestamp, IsId, Quoted, IsUniqueObject, Decimal, AreDigits;
    DigitsAreValid(Decimal(1));
    EscapeKeepsUtf8(e.name);
    TimestampIsValid(e.timestamp);
    EscapeKeepsUtf8(e.timestamp);
    if e.kind == Event {
      DigitsAreValid(Decimal(e.sequence.value));
    } else {
      IdIsValid(e.id.value);
      EscapeKeepsUtf8(e.id.value);
    }
  }

  lemma WrittenAreValid(e: Envelope)
    requires WellFormed(e) && AreOctets(e) && e.payload != []
    ensures AllValid(WrittenFields(e))
  {
    WellFormedAgrees(e);
    KeywordsAreValid();
    WrittenKindIsValid(e.kind);
    WrittenTailIsValid(e);
    hide *;
    WrittenListIsValid(e);
  }

  lemma KeywordsAreValid()
    ensures Valid(Keyword(0)) && Valid(Keyword(1)) && Valid(Keyword(2)) && Valid(Keyword(3))
    ensures Valid(Keyword(4)) && Valid(Keyword(5)) && Valid(Keyword(6))
  {
    hide *;
    KeywordsArePlain(0);
    KeywordsArePlain(1);
    KeywordsArePlain(2);
    KeywordsArePlain(3);
    KeywordsArePlain(4);
    KeywordsArePlain(5);
    KeywordsArePlain(6);
  }

  lemma WrittenListIsValid(e: Envelope)
    requires AreOctets(e) && e.payload != [] && KindAgrees(e.kind, e.id, e.sequence)
    requires Valid(Keyword(0)) && Valid(Keyword(1)) && Valid(Keyword(2)) && Valid(Keyword(3))
    requires Valid(Keyword(4)) && Valid(Keyword(5)) && Valid(Keyword(6))
    requires Valid([QUOTE] + KindText(e.kind) + [QUOTE]) && Valid(SignedDecimal(e.version)) && Valid(e.payload)
    requires if e.kind == Event then Valid(Decimal(e.sequence.value)) else Valid(Quoted(e.id.value))
    requires Valid(Quoted(e.name)) && Valid(Quoted(e.timestamp))
    ensures AllValid(WrittenFields(e))
  {
    hide IsOctets, Valid, Quoted, Keyword, Decimal, SignedDecimal, KindText;
  }

  lemma WellFormedAgrees(e: Envelope)
    requires WellFormed(e)
    ensures KindAgrees(e.kind, e.id, e.sequence)
  {
  }

  lemma EncodeIsValid(e: Envelope)
    requires WellFormed(e) && AreOctets(e) && e.payload != []
    ensures Valid(Encode(e))
  {
    WrittenAreValid(e);
    hide Valid, WrittenFields, Joined, AllValid, WellFormed, AreOctets;
    JoinedIsValid(WrittenFields(e));
    AsciiIsValid([OPEN_BRACE]);
    AsciiIsValid([CLOSE_BRACE]);
    ValidConcat([OPEN_BRACE], Joined(WrittenFields(e)));
    ValidConcat([OPEN_BRACE] + Joined(WrittenFields(e)), [CLOSE_BRACE]);
  }

  // ----- The round trip -----

  /** Decoding undoes encoding on every well-formed envelope. */
  lemma DecodeUndoesEncode(e: Envelope)
    requires WellFormed(e)
    ensures AreOctets(e) && Decode(Encode(e)) == Ok(e)
  {
    hide *;
    WellFormedOctets(e);
    var ms := WellFormedParts(e);
    WrittenTreesFit(e, ms);
    WrittenCarries(e);
    WrittenReadsBack(WrittenTrees(e, ms));
    EncodeIsValid(e);
    CarriedDecodes(MapOf(WrittenFields(e)), e);
    DecodeAssembles(e);
  }

  lemma WellFormedParts(e: Envelope) returns (ms: Members)
    requires WellFormed(e)
    ensures e.version == 1 && KindAgrees(e.kind, e.id, e.sequence) && IsUniqueObject(e.payload, ms)
  {
    hide IsUniqueObject, IsId, IsTimestamp, Valid, KindAgrees;
    ms :| IsUniqueObject(e.payload, ms);
  }

  lemma DecodeAssembles(e: Envelope)
    requires AreOctets(e) && Valid(Encode(e)) && DecodeFields(MapOf(WrittenFields(e))) == Ok(e)
    requires ObjectFields([OPEN_BRACE] + Joined(WrittenFields(e)) + [CLOSE_BRACE]) == Some(MapOf(WrittenFields(e)))
    ensures Decode(Encode(e)) == Ok(e)
  {
    hide Valid, ObjectFields, DecodeFields, MapOf, WrittenFields, Joined, AreOctets;
  }
}