# Selection host and desktop translator: verified models

Dafny models of the parts of this desktop translator where correctness is hardest to see, with proofs over all inputs,
all runs and all interleavings. `dafny verify dfyconfig.toml` checks the project.

## What is modelled

**The native wire format.** `Utf8` is the strict decoder and the UTF-16-limited truncation of the C++ host, and `Utf16`
the desktop's guard for the same text. `JsonGrammar` gives JSON texts as derivation trees that flatten back to the very
text; `JsonStrings`, `JsonValues`, `JsonValueReader` and `JsonObjects` are the hand-written reader, proved sound and
complete for that grammar. `Decimals`, `Timestamps`, `Envelope`, `EnvelopeCodec`, `EnvelopeRoundTrip` and
`EnvelopeDecoded` are the envelope codec: the envelopes that survive encoding and decoding are exactly the well-formed
ones. `EnvelopeMeaning` says over the grammar which texts decode to which envelope, and which are of another protocol.
`FrameCodec` and `DesktopFrames` are the two stream decoders, and `ScannedText` with `JsonScanner` the desktop's scan for
size, depth and repeated keys. `DesktopText`, `UnitTrees` and `Unambiguous` carry a JSON text from octets to
UTF-16 units and back to its only tree; `DesktopAcceptance` and `EnvelopeOnDesktop` say exactly which native values and
envelopes the desktop accepts, and what it reads in them.

**The event transport.** `SpscQueue` splits the lock-free ring into its atomic steps. `EventTransport` is the numbered
event writer and the pipe sender as a state machine over any number of threads, `EventPipe` the two methods under their
locks, and `EventDelivery` the composition: producers, pipe, the desktop's frame decoder, parser and scan, and the
client's sequence check. `HostClient` is the client with its table of pending requests.

**The credential store.** `CredentialProtocol` has saves, deletes and loads as tasks that interleave at every await,
`CredentialSafety` and `CredentialReads` prove what the generations, the write tail and the compare-and-swap are for,
`CredentialOutcomes` says of every run how each task ends and that none is left waiting, and `CredentialStore` is the
class with its fields updated in place; each of its methods keeps that invariant.

**The translation session.** `TranslationSession` is the latest-wins reducer and the application reducer around it, read
back through their effect logs. `TranslationController` drives the reducer with abort signals, a deadline and promises
that settle late.

**Arithmetic.** `BallPosition` places the floating ball over exact reals; `NearestRank` and `MetricsSummary` are the
percentiles and the grouping of metric samples.

Where the source updates state step by step, a method or a class does so here and is proved against a specification
function; the lemmas are about that function. Octets are integers below 256, UTF-16 units integers below 65536.

## What the code does not do

- The desktop guard for UTF-16 accepts a text that ends in an unpaired high surrogate: `charCodeAt` past the end is NaN,
  and no comparison with NaN holds. `Utf16.GuardAcceptsExactly` says which texts pass, `Utf16.AcceptedSlices` when every
  slice is well-formed.
- A frame that holds `null` ends the desktop's readable side, because `push(null)` means the end of a stream: nothing
  is emitted for it, and the next value is an error. The native decoder delivers it. `DesktopFrames.DecodersAgree` says
  exactly when both agree, `DesktopFrames.NullEndsTheStream` gives the input.
- The native codec accepts payloads that the desktop refuses inside an envelope: with a key repeated below the top level
  (`EnvelopeOnDesktop.NestedRepeatIsRefused`), with more than 65530 values or 31 levels, or with a vertical tab or form
  feed between tokens. `EnvelopeOnDesktop.EncodingAccepted` says that there are no others. A pipe that carries one fails
  the desktop's decoder: `EventDelivery.EventsReachTheClient`.
- `EncodeFrame` writes a frame for an empty payload, which both decoders refuse: `FrameCodec.EncodedComesBack`.
- The size check after the desktop decoder's loop can never fire, because what is left over is shorter than a frame:
  `FrameCodec.LeftoverIsShort`, used in `DesktopFrames.DesktopDecoder.Transform`.
- Loads of the credential store are linearizable only because the repository takes effect when called: were effects to
  land later, a load could return a value that is stored no longer (`CredentialReads.LateEffectsMakeLoadsStale`). The
  latest mutation wins in both cases.
- A save that fails after a newer save or delete began reports that it was superseded; a delete in the same place reports
  its own failure: `CredentialOutcomes.MutationsEndExactly`.
- Placing a ball's bounds again keeps the bounds, but for fractional requests it can change the anchor
  (`BallPosition.RoundingMovesTheAnchor`, `BallPosition.RoundingFlipsTheEdge`). The bounds the shell passes, those of a
  window or of an anchor it resolved, are whole numbers, so that `BallPosition.WholeRequestsSurvive` covers its calls
  (apps/desktop/src/main/ui-shell/shell-controller.ts:727-749). Without edge snap the anchor resolves to the same bounds
  only for requests at an edge (`BallPosition.ResolvingTheAnchor`).

## Model

| member | source | states |
|---|---|---|
| Utf8.DecodeOneMeetsRfc3629 | native/selection-host/src/core/utf8.cpp:16-53 | the decoder accepts at a position exactly when a UTF8-char of section 4 of RFC 3629 stands there, and takes all of it |
| Utf8.DecodeEncoded | native/selection-host/src/core/envelope.cpp:23-39 | decoding the octets AppendUtf8 writes gives the code point back, whatever follows |
| Utf8.EncodeDecoded | native/selection-host/src/core/utf8.cpp:16-53 | what the decoder accepts is the encoding of a scalar value, octet for octet |
| Utf8.IsValidUtf8 | native/selection-host/src/core/utf8.cpp:88-96 | the loop answers whether the text decodes from end to end |
| Utf8.ValidIffEncoding | native/selection-host/src/core/utf8.cpp:88-96 | the accepted texts are exactly the encodings of sequences of scalar values |
| Utf8.Utf16CodeUnitLength | native/selection-host/src/core/utf8.cpp:77-86 | the loop counts the UTF-16 units from the start of any octets |
| Utf8.ReadEncoded | native/selection-host/src/core/utf8.cpp:77-96 | an encoding is valid, has the UTF-16 length of its scalars, and without NUL reads back as them |
| Utf8.SliceIsValid | native/selection-host/src/core/utf8.cpp:88-96 | a slice of UTF-8 between ASCII octets is UTF-8 |
| Utf8.TruncateUtf8ToUtf16Units | native/selection-host/src/core/utf8.cpp:57-75 | the loop yields the specified truncation of any octets, malformed ones included |
| Utf8.BrokenIsReplaced | native/selection-host/src/core/utf8.cpp:57-75 | what cannot be decoded is skipped by one octet and stands as the three octets of U+FFFD in what is kept |
| Utf8.TruncateIsClean | native/selection-host/src/core/utf8.cpp:57-75 | any octets come out as valid NUL-free UTF-8 within the limit |
| Utf8.TruncateIsMaximal | native/selection-host/src/core/utf8.cpp:57-75 | what is kept is a prefix of the cleaned text and one more code point would not fit |
| Utf8.TruncateIsIdempotentAndMonotone | native/selection-host/src/core/utf8.cpp:57-75 | truncating again changes nothing, and a smaller limit gives a prefix |
| Utf8.TruncateFixesExactlyCleanText | native/selection-host/src/core/utf8.cpp:57-75 | the texts left unchanged are exactly the valid NUL-free ones that fit |
| Utf16.PairedIffUtf16 | packages/contracts/src/native-ipc.ts:269-282 | NUL-free text with paired surrogates is exactly the UTF-16 form (section 2 of RFC 2781) of NUL-free scalars |
| Utf16.HasValidUtf16AndNoNul | packages/contracts/src/native-ipc.ts:269-282 | the loop computes the guard, with a comparison past the end failing as it does on NaN |
| Utf16.GuardAcceptsExactly | packages/contracts/src/native-ipc.ts:269-282 | the guard accepts exactly well-formed NUL-free text, possibly followed by one unpaired high surrogate |
| Utf16.TextsAccepted | packages/contracts/src/native-ipc.ts:334 | the selection texts accepted are those of 1 to 32768 units that are well-formed and NUL-free, or one such text and an unpaired high surrogate |
| Utf16.LoneHighSurrogatePasses | packages/contracts/src/native-ipc.ts:269-352 | a one-unit text the guard accepts although it is not UTF-16, and the range of its only unit, accepted too, whose slice is not UTF-16 either |
| Utf16.CheckRanges | packages/contracts/src/native-ipc.ts:339-352 | the loop accepts exactly the range lists that are ordered, in bounds and cut at boundaries |
| Utf16.AcceptedExactly | packages/contracts/src/native-ipc.ts:339-345 | ranges are accepted if and only if each is non-empty and within the text, no two overlap, and no end splits a surrogate pair |
| Utf16.AcceptedAreDisjoint | packages/contracts/src/native-ipc.ts:339-352 | accepted ranges are ordered and disjoint |
| Utf16.AcceptedSlices | packages/contracts/src/native-ipc.ts:339-352 | which slices of accepted ranges are well-formed: all of them exactly when the text has no unpaired surrogate at its end |
| Utf16.HostTextPassesGuard | packages/contracts/src/native-ipc.ts:269-288 | the UTF-16 form of non-empty truncated text has the counted length, passes the guard, and its whole range is accepted |
| JsonStrings.ParseHex4 | native/selection-host/src/core/envelope.cpp:41-53 | four hexadecimal digits, any case, or nothing |
| JsonGrammar.HexDigitsAre | native/selection-host/src/core/envelope.cpp:41-53 | the digits are those of 0123456789abcdef and of 0123456789ABCDEF, with their values |
| JsonGrammar.ShortValuesAre | native/selection-host/src/core/envelope.cpp:67-76 | the two-character escapes are the eight of section 7 of RFC 8259, with the characters they stand for |
| JsonGrammar.SpacesAre | native/selection-host/src/core/envelope.cpp:16-21 | white space is that of the C locale natively, and blank, tab, line feed and carriage return in RFC 8259 |
| JsonStrings.ParseUnicodeEscape | native/selection-host/src/core/envelope.cpp:77-97 | a four-digit escape or a surrogate pair of two, with the code point it stands for |
| JsonStrings.ParseEscape | native/selection-host/src/core/envelope.cpp:67-99 | every escape, the position after it and its code point |
| JsonStrings.ParseString | native/selection-host/src/core/envelope.cpp:55-102 | the reader succeeds exactly on a literal, yields its value and stops after its closing quote |
| JsonStrings.StringSound | native/selection-host/src/core/envelope.cpp:55-102 | what is read as a string is a string of the grammar (section 7 of RFC 8259, surrogate escapes only in pairs) |
| JsonStrings.StringComplete | native/selection-host/src/core/envelope.cpp:55-102 | every string of the grammar is read whole, whatever follows |
| JsonStrings.EscapeJsonString | native/selection-host/src/core/envelope.cpp:407-431 | the loop writes the specified escape of any octets |
| JsonStrings.EscapeRoundTrip | native/selection-host/src/core/envelope.cpp:407-431 | reading the quoted escape of any octets, anywhere in a text, yields them and stops after the closing quote |
| JsonStrings.StringKeepsUtf8 | native/selection-host/src/core/envelope.cpp:55-102 | on UTF-8 input a decoded string is UTF-8, surrogate pairs included, and so is what follows the literal |
| JsonValues.NumberSound | native/selection-host/src/core/envelope.cpp:164-192 | what is read as a number is a number of section 6 of RFC 8259 |
| JsonValues.NumberComplete | native/selection-host/src/core/envelope.cpp:164-192 | every number followed by a delimiter is read to its end |
| JsonValues.NoDigitFollows | native/selection-host/src/core/envelope.cpp:164-192 | no digit follows what is read as a number, not even after a leading zero |
| JsonValues.ValueSound | native/selection-host/src/core/envelope.cpp:104-199 | what is read as a value is a value of the grammar within the depth left |
| JsonValues.ValueComplete | native/selection-host/src/core/envelope.cpp:104-199 | every value of the grammar within the depth, followed by a delimiter, is read exactly |
| JsonValues.MembersSound | native/selection-host/src/core/envelope.cpp:114-136 | the members read are members of the grammar |
| JsonValues.MembersComplete | native/selection-host/src/core/envelope.cpp:114-136 | every list of members is read exactly |
| JsonValues.ItemsComplete | native/selection-host/src/core/envelope.cpp:137-155 | every list of array items is read exactly |
| JsonValueReader.SkipWhitespace | native/selection-host/src/core/envelope.cpp:16-21 | the cursor stops at the first octet that is not C-locale white space |
| JsonValueReader.ConsumeNumber | native/selection-host/src/core/envelope.cpp:164-192 | the loop over digits ends where the specified number ends |
| JsonValueReader.ConsumeMembers | native/selection-host/src/core/envelope.cpp:114-136 | the object loop agrees with the recursive specification at every depth |
| JsonValueReader.ConsumeItems | native/selection-host/src/core/envelope.cpp:137-155 | the array loop agrees with the recursive specification at every depth |
| JsonValueReader.FindValueEnd | native/selection-host/src/core/envelope.cpp:104-199 | the reader terminates with the specified end for every text and start |
| JsonValueReader.AcceptedIsGrammar | native/selection-host/src/core/envelope.cpp:104-199 | whatever FindValueEnd accepts is white space and one value of the grammar nesting at most 64 levels |
| JsonValueReader.GrammarIsAccepted | native/selection-host/src/core/envelope.cpp:104-199 | every such value followed by a delimiter or the end is accepted and consumed exactly |
| JsonObjects.ParseObject | native/selection-host/src/core/envelope.cpp:201-236 | the loop stores the specified fields of any text, or refuses it |
| JsonObjects.ReadField | native/selection-host/src/core/envelope.cpp:213-223 | one turn: key, colon and value extent, refused when malformed or when the key is already stored |
| JsonObjects.AddFieldsIs | native/selection-host/src/core/envelope.cpp:201-236 | storing key by key succeeds exactly for distinct decoded keys that are not stored yet |
| JsonObjects.ObjectSound | native/selection-host/src/core/envelope.cpp:201-236 | an accepted text is one object of the grammar with distinct decoded keys, and exactly its fields are stored |
| JsonObjects.ObjectComplete | native/selection-host/src/core/envelope.cpp:201-236 | every object of the grammar is accepted exactly when its decoded top-level keys are distinct |
| Decimals.DecimalReadsBack | native/selection-host/src/core/envelope.cpp:247-253 | the decimal form of a number has no leading zero and reads back as the number |
| Timestamps.Number | native/selection-host/src/core/envelope.cpp:265-275 | reading a fixed count of digits gives the number, or -1 |
| Timestamps.IsRfc3339Timestamp | native/selection-host/src/core/envelope.cpp:264-309 | the reader decides the specified timestamps |
| Timestamps.MomentIsTimestamp | native/selection-host/src/core/envelope.cpp:264-309 | every valid date and time written out in section 5.6 of RFC 3339 is accepted unless longer than 64 octets |
| Timestamps.TimestampsAreMoments | native/selection-host/src/core/envelope.cpp:264-309 | the accepted timestamps are exactly the valid moments written out in at most 64 octets, without leap seconds |
| Timestamps.MonthsAddUp | native/selection-host/src/core/envelope.cpp:290-293 | each month of each year is as long as the Gregorian count of days from its first day to the next month's says |
| EnvelopeCodec.DecodeString | native/selection-host/src/core/envelope.cpp:238-245 | a quoted literal alone, with white space after it |
| EnvelopeCodec.ReadKind | native/selection-host/src/core/envelope.cpp:255-262 | the three message kinds and nothing else |
| EnvelopeCodec.HasOnlyKnown | native/selection-host/src/core/envelope.cpp:352-358 | the loop over the field map finds any unknown field |
| EnvelopeCodec.ReadFields | native/selection-host/src/core/envelope.cpp:331-404 | the checks in the order of the source, with the error codes `EnvelopeMeaning` pins |
| EnvelopeCodec.DecodeEnvelope | native/selection-host/src/core/envelope.cpp:322-405 | decoding any octets gives the specified envelope or error |
| EnvelopeCodec.EncodeEnvelope | native/selection-host/src/core/envelope.cpp:433-443 | the text appended piece by piece is the specified encoding |
| EnvelopeRoundTrip.WrittenReadsBack | native/selection-host/src/core/envelope.cpp:201-236 | an object written field by field with different plain names reads back as the map of its fields |
| EnvelopeRoundTrip.EscapeKeepsUtf8 | native/selection-host/src/core/envelope.cpp:407-431 | escaping UTF-8 gives UTF-8 |
| EnvelopeRoundTrip.EncodeIsValid | native/selection-host/src/core/envelope.cpp:433-443 | a well-formed envelope is written in UTF-8 |
| EnvelopeRoundTrip.DecodeUndoesEncode | native/selection-host/src/core/envelope.cpp:322-443 | decoding the encoding of a well-formed envelope gives it back: every 64-bit number, every payload octet |
| EnvelopeDecoded.FieldIsValue | native/selection-host/src/core/envelope.cpp:201-236 | each field of a read UTF-8 object is UTF-8 and a value of the grammar |
| EnvelopeDecoded.PayloadIsUniqueObject | native/selection-host/src/core/envelope.cpp:369-379 | a payload that passes is a trimmed object of the grammar with distinct keys |
| EnvelopeDecoded.DecodedIsWellFormed | native/selection-host/src/core/envelope.cpp:322-405 | whatever decodes is a well-formed envelope |
| EnvelopeDecoded.RoundTripExactlyWellFormed | native/selection-host/src/core/envelope.cpp:322-443 | the envelopes that survive encoding and decoding are exactly the well-formed ones |
| EnvelopeDecoded.ReencodingPreserves | native/selection-host/src/core/envelope.cpp:322-443 | a decoded envelope survives being encoded and decoded again |
| EnvelopeMeaning.DecodesExactly | native/selection-host/src/core/envelope.cpp:322-405 | any text decodes to an envelope if and only if it is UTF-8 and one object with distinct keys, none but the seven names, that says of each field what the envelope says: "v" the decimal 1, kind, id, seq, method and timestamp by value, the payload as an object text |
| EnvelopeMeaning.RefusesExactly | native/selection-host/src/core/envelope.cpp:337-350 | a text is refused as of another protocol if and only if it is UTF-8 and one object with distinct keys that has the five required names and a decimal 32-bit integer other than 1 as "v"; every other text that is no envelope is malformed |
| EnvelopeMeaning.WholeIsDecimal | native/selection-host/src/core/envelope.cpp:247-253 | the texts read as a number are exactly the decimals of the numbers in range |
| EnvelopeMeaning.IdsAreIdentifiers | native/selection-host/src/core/envelope.cpp:381-388 | an id is a letter or digit and at most 127 letters, digits, points, underscores, colons or hyphens |
| FrameCodec.EncodeFrame | native/selection-host/src/core/frame_codec.cpp:8-23 | a little-endian length and the payload, or an error above one MiB |
| FrameCodec.FrameDecoder.Feed | native/selection-host/src/core/frame_codec.cpp:25-63 | the loop over the buffer delivers the specified frames and keeps the specified state, failure and unerased buffer included |
| FrameCodec.FrameDecoder.Reset | native/selection-host/src/core/frame_codec.cpp:65-68 | the decoder is as new |
| FrameCodec.HeaderReadsBack | native/selection-host/src/core/frame_codec.cpp:8-35 | a header reads back as the length it was written from |
| FrameCodec.DrainGrows | native/selection-host/src/core/frame_codec.cpp:25-63 | what was drained stays drained when more octets arrive |
| FrameCodec.ChunkingDoesNotMatter | native/selection-host/src/core/frame_codec.cpp:25-63 | for every split the final error is that of one call; without one so are frames and leftover; with one the delivered frames are a prefix of those before the bad header |
| FrameCodec.LeftoverIsShort | native/selection-host/src/core/frame_codec.cpp:25-63 | what is left over is always shorter than 4 plus the limit |
| FrameCodec.StopsExactly | native/selection-host/src/core/frame_codec.cpp:33-54 | draining stops at a header of zero as malformed, at a header above the limit as too large, and otherwise only where a header or its payload is incomplete |
| FrameCodec.EncodedComesBack | native/selection-host/src/core/frame_codec.cpp:8-63 | payloads within the limit come back from every split exactly when none is empty |
| FrameCodec.DrainedComesBack | native/selection-host/src/core/frame_codec.cpp:8-63 | what was delivered, encoded again, and the leftover are the stream that was read |
| DesktopFrames.DesktopDecoder.Transform | apps/desktop/src/main/native-host/frame-codec.ts:25-56 | one call pushes the specified values, ends the readable side at a null, keeps the specified octets and fails as specified; the size check after the loop never fires |
| DesktopFrames.DesktopDecoder.Flush | apps/desktop/src/main/native-host/frame-codec.ts:58-64 | the end of the stream is an error exactly when octets are left |
| DesktopFrames.EmitIsDrain | apps/desktop/src/main/native-host/frame-codec.ts:25-56 | the desktop emits the native decoder's frames up to the first that is no value, and fails exactly at a refused frame, at a bad header or at a value after a null |
| DesktopFrames.EmitAllIs | apps/desktop/src/main/native-host/frame-codec.ts:25-56 | for every split the emitted values and the failure are those of one call, also when it fails |
| DesktopFrames.DecodersAgree | apps/desktop/src/main/native-host/frame-codec.ts:25-56 | both decoders, each in its own split: the desktop accepts exactly the streams the native one accepts in which nothing is refused and no value follows a null; it emits the same payloads exactly when all of them are values |
| DesktopFrames.EndsCleanly | apps/desktop/src/main/native-host/frame-codec.ts:25-64 | a stream ends without error exactly when it is whole non-empty frames in the limit, none refused and no value after a null |
| DesktopFrames.NullEndsTheStream | apps/desktop/src/main/native-host/frame-codec.ts:44-47 | on the frame null the native decoder delivers a payload and the desktop none, without an error; with a frame after it the desktop fails |
| ScannedText.PiecesScanned | apps/desktop/src/main/native-host/frame-codec.ts:78-94 | the escape-skipping loop ends at the closing quote of every JSON string and decodes it unit by unit |
| ScannedText.NumberScanned | apps/desktop/src/main/native-host/frame-codec.ts:157-161 | the greedy regular expression takes exactly a JSON number that a delimiter follows |
| ScannedText.MemberStands | apps/desktop/src/main/native-host/frame-codec.ts:111-128 | the scanner's cursor meets key, colon, value and separator of every member in turn, white space skipped by \s |
| ScannedText.ItemStands | apps/desktop/src/main/native-host/frame-codec.ts:139-148 | the same for array items |
| JsonScanner.FreshCons | apps/desktop/src/main/native-host/frame-codec.ts:113-116 | adding keys one by one to a set finds exactly the repeated ones |
| JsonScanner.ScanIs | apps/desktop/src/main/native-host/frame-codec.ts:96-162 | scanning a value succeeds exactly when counts, depths and keys are in order, from any node count and depth |
| JsonScanner.Scanner.SkipWhitespace | apps/desktop/src/main/native-host/frame-codec.ts:74-76 | the index stops at the first character outside \s |
| JsonScanner.Scanner.ReadString | apps/desktop/src/main/native-host/frame-codec.ts:78-94 | the loop ends where the specified literal ends, with its decoded key |
| JsonScanner.Scanner.ParseValue | apps/desktop/src/main/native-host/frame-codec.ts:96-162 | on a value of the grammar the scanner agrees with the scan of its tree and ends where the value does |
| JsonScanner.Scanner.ParseObject | apps/desktop/src/main/native-host/frame-codec.ts:103-130 | the member loop, with its set of keys |
| JsonScanner.Scanner.ParseArray | apps/desktop/src/main/native-host/frame-codec.ts:132-150 | the item loop |
| JsonScanner.AssertJsonComplexityAndUniqueKeys | apps/desktop/src/main/native-host/frame-codec.ts:67-167 | on valid JSON: accepted exactly with at most 65536 values, depth at most 32 and no object at any level with two equal decoded keys |
| Unambiguous.DocumentsSame | apps/desktop/src/main/native-host/frame-codec.ts:45-46 | a text is at most one JSON document: the tree JSON.parse builds is the one the scan walks over |
| Unambiguous.ValuesSame | apps/desktop/src/main/native-host/frame-codec.ts:45-46 | two values of the grammar at one place, each followed by a delimiter, are the same tree |
| DesktopText.UnitsAreUtf16 | apps/desktop/src/main/native-host/frame-codec.ts:44 | the octets of any code points decode to their UTF-16 form |
| DesktopText.UnitsDetermine | apps/desktop/src/main/native-host/frame-codec.ts:44 | different UTF-8 texts decode to different units |
| UnitTrees.StringMirrors | native/selection-host/src/core/envelope.cpp:55-102 | every string of the native grammar in UTF-8 is, in its units, a string of RFC 8259 that decodes to the units of the same text, surrogate pairs and multi-octet characters included |
| UnitTrees.ValueMirrors | native/selection-host/src/core/envelope.cpp:104-199 | every native value in UTF-8 has a counterpart in the very units of its text: same shape, spaces, numbers and words, and strings for the same texts |
| DesktopAcceptance.DocumentMirrors | apps/desktop/src/main/native-host/frame-codec.ts:44-46 | whatever document the desktop reads from a native value is that counterpart, with nothing around it |
| DesktopAcceptance.SameSpaces | apps/desktop/src/main/native-host/frame-codec.ts:45 | the counterpart is valid JSON exactly when the native value has no other white space than that of RFC 8259 |
| DesktopAcceptance.SameUniqueness | apps/desktop/src/main/native-host/frame-codec.ts:113-116 | the desktop finds a repeated key exactly where two keys of one object decode to the same octets |
| DesktopAcceptance.AcceptedExactly | apps/desktop/src/main/native-host/frame-codec.ts:44-167 | of the native values the desktop accepts exactly those with the white space of RFC 8259 only, at most 65536 values, 32 levels and no repeated key in any object; only null reads as null |
| DesktopAcceptance.MarkIsDropped | apps/desktop/src/main/native-host/frame-codec.ts:44-47 | one byte order mark before a text is dropped |
| EnvelopeOnDesktop.EncodingAccepted | apps/desktop/src/main/native-host/frame-codec.ts:44-167 | an encoded envelope is accepted exactly when its payload has the white space of RFC 8259 only, at most 65530 values, 31 levels and no repeated key in any object |
| EnvelopeOnDesktop.PropertiesArrive | native/selection-host/src/core/envelope.cpp:433-443 | whatever document the desktop reads in an encoded envelope has the six properties sent: names, strings unit by unit, numbers digit by digit, the payload value by value |
| EnvelopeOnDesktop.DeliverableArrives | apps/desktop/src/main/native-host/frame-codec.ts:44-47 | of the well-formed envelopes the desktop accepts exactly those with a deliverable payload, as one document that is the envelope sent |
| EnvelopeOnDesktop.NestedRepeatIsRefused | apps/desktop/src/main/native-host/frame-codec.ts:113-116 | with the payload {"a":{"b":1,"b":2}} every message round-trips natively and is refused by the desktop |
| SpscQueue.StepKeeps | native/selection-host/include/desktop_translate/native/core/bounded_spsc_queue.h:19-38 | every atomic step of either thread keeps the ring's invariant |
| SpscQueue.PoppedIsAPrefix | native/selection-host/include/desktop_translate/native/core/bounded_spsc_queue.h:19-38 | in every interleaving, for any N of at least 2, popped values are a prefix of accepted pushes and at most N - 1 are stored |
| SpscQueue.StepRefinesFifo | native/selection-host/include/desktop_translate/native/core/bounded_spsc_queue.h:19-38 | each atomic step leaves the abstract queue alone, appends the pushed value while there is room, or takes the first value |
| SpscQueue.NeverOneSlot | native/selection-host/include/desktop_translate/native/core/bounded_spsc_queue.h:25-35 | the producer never writes the slot the consumer is about to read |
| SpscQueue.RefusalsAreTrue | native/selection-host/include/desktop_translate/native/core/bounded_spsc_queue.h:20-34 | a push is refused exactly when the queue is full at its second load, a pop exactly when it is empty |
| SpscQueue.BoundedSpscQueue.ProducerStep | native/selection-host/include/desktop_translate/native/core/bounded_spsc_queue.h:19-28 | one atomic step of TryPush on the slots array is the step of the model |
| SpscQueue.BoundedSpscQueue.ConsumerStep | native/selection-host/include/desktop_translate/native/core/bounded_spsc_queue.h:30-38 | one atomic step of TryPop is the step of the model |
| SpscQueue.BoundedSpscQueue.TryPush | native/selection-host/include/desktop_translate/native/core/bounded_spsc_queue.h:19-28 | undisturbed, a push appends the value, or is refused exactly when full |
| SpscQueue.BoundedSpscQueue.TryPop | native/selection-host/include/desktop_translate/native/core/bounded_spsc_queue.h:30-38 | undisturbed, a pop takes the first value, or is refused exactly when empty |
| EventTransport.StepKeeps | native/selection-host/src/ipc/named_pipe_server.cpp:235-282 | every step of a sender, a write, a failure, a disconnect or a connect keeps locks, wire and numbers in order |
| EventTransport.WireIsOrdered | native/selection-host/include/desktop_translate/native/ipc/sequenced_event_writer.h:27-44 | in every interleaving the wire is whole frames in lock order and at most one incomplete frame, and event numbers strictly increase |
| EventPipe.Pipe.WriteSome | native/selection-host/src/ipc/named_pipe_server.cpp:260-277 | one write: the connection stays exactly when the write transferred something, and as much of the frame follows on the wire; a failed one is retired |
| EventPipe.Pipe.Send | native/selection-host/src/ipc/named_pipe_server.cpp:235-282 | the write loop is a run of the model; success means the whole frame was sent, failure that the connection is not connected any more, and on a connection whose writes all transfer it succeeds |
| EventPipe.Pipe.SendEvent | native/selection-host/include/desktop_translate/native/ipc/sequenced_event_writer.h:27-44 | numbering and sending is a run of the model; what is sent is the event of this name, time and payload under the next number, which is used up in any case |
| EventPipe.ConnectedCarries | native/selection-host/include/desktop_translate/native/ipc/sequenced_event_writer.h:27-44 | after a connect an idle pipe carries an event whole under the next number: the wire holds its frame alone and the locks are free again |
| EventDelivery.PrefixSplits | apps/desktop/src/main/native-host/frame-codec.ts:25-56 | any prefix of a stream of frames is some of the frames and an incomplete one |
| EventDelivery.IncreasingIsAccepted | apps/desktop/src/main/native-host/native-host-client.ts:181-185 | growing numbers above the last one pass the client's check one after the other |
| EventDelivery.EventsReachTheClient | apps/desktop/src/main/native-host/native-host-client.ts:147-203 | for every run and every arrival of octets: the frames that arrived are the first messages in lock order; the desktop fails exactly when a payload among them is not deliverable, and otherwise emits them all and reads each as sent; an otherwise undisturbed client stays connected and hands on every event number, below 2^53 |
| HostClient.EachRequestSettlesOnce | apps/desktop/src/main/native-host/native-host-client.ts:93-226 | in every run an id is in the table exactly when its promise is unsettled and its timer armed, nothing settles twice, no socket means nothing pending, and pointer-down events are negotiated only when asked for and granted |
| HostClient.SettledIsFinal | apps/desktop/src/main/native-host/native-host-client.ts:147-214 | a settled promise never changes, and a request resolves only at a response of its id and expected method |
| HostClient.SettlesExactly | apps/desktop/src/main/native-host/native-host-client.ts:93-226 | in every run an unsettled promise resolves if and only if the response of its id and expected name comes; it is rejected as timed out exactly at its timeout, with the host's error exactly at an event in order that names it, as closed exactly at close, as disconnected exactly at any other loss of the socket, and the inputs that lose it are listed |
| HostClient.SettledBy | apps/desktop/src/main/native-host/native-host-client.ts:93-226 | over a whole run: a promise was settled in a way if and only if some input did so by those rules while it waited |
| HostClient.AnswerDisturbsNothing | apps/desktop/src/main/native-host/native-host-client.ts:153-174 | the awaited response keeps the socket, the sequence and every other promise, and sets the negotiation only as the answer to hello |
| HostClient.RequestWaits | apps/desktop/src/main/native-host/native-host-client.ts:93-130 | a request on a live socket waits with its timer armed and touches no other; without one it changes nothing |
| HostClient.ConnectStartsAfresh | apps/desktop/src/main/native-host/native-host-client.ts:58-66 | a new connection takes any first event number, has negotiated nothing and has no request waiting |
| HostClient.EventsAreAccepted | apps/desktop/src/main/native-host/native-host-client.ts:176-203 | an open connection that no other input closes, pointer-down events coming only when negotiated, survives its events exactly when their numbers grow, whatever comes between them, and then hands on each |
| HostClient.NativeHostClient.RejectAll | apps/desktop/src/main/native-host/native-host-client.ts:214-220 | the loop rejects each pending request once and empties the table |
| HostClient.NativeHostClient.CloseWith | apps/desktop/src/main/native-host/native-host-client.ts:206-212 | an error closes once and rejects what is pending |
| HostClient.NativeHostClient.Open | apps/desktop/src/main/native-host/native-host-client.ts:58-66 | connecting resets the sequence and the negotiation |
| HostClient.NativeHostClient.Send | apps/desktop/src/main/native-host/native-host-client.ts:93-130 | a request on a live socket enters the table with its timer |
| HostClient.NativeHostClient.OnResponse | apps/desktop/src/main/native-host/native-host-client.ts:153-174 | an unknown or mismatched response closes the connection, any other resolves its request |
| HostClient.NativeHostClient.OnEvent | apps/desktop/src/main/native-host/native-host-client.ts:176-203 | an unnegotiated or non-increasing event closes the connection; a host error rejects its request |
| HostClient.NativeHostClient.OnTimeout | apps/desktop/src/main/native-host/native-host-client.ts:120-123 | a timeout removes and rejects its request |
| HostClient.NativeHostClient.CloseClient | apps/desktop/src/main/native-host/native-host-client.ts:132-135 | closing drops the socket and rejects what is pending |
| CredentialSafety.StepKeeps | apps/desktop/src/main/translation/provider-credential-store.ts:140-295 | every step of every task keeps queue order, pending generations and what the newest mutation wrote |
| CredentialSafety.LatestMutationWins | apps/desktop/src/main/translation/provider-credential-store.ts:140-168 | when the newest save or delete has succeeded, storage decrypts to its value or is empty, however late repository calls take effect |
| CredentialSafety.NothingComesBack | apps/desktop/src/main/translation/provider-credential-store.ts:198-210 | until a newer mutation begins the stored plaintext stays: a deleted credential never returns |
| CredentialSafety.ReplacedKeeps | apps/desktop/src/main/translation/provider-credential-store.ts:254-264 | compare and swap with a re-encryption never changes the stored plaintext |
| CredentialSafety.NewestIsLast | apps/desktop/src/main/translation/provider-credential-store.ts:275-282 | the newest mutation at the head of the write tail is alone in it |
| CredentialReads.EagerKeeps | apps/desktop/src/main/translation/provider-credential-store.ts:170-267 | with effects at the call, what a current load has read stays what is stored, step by step |
| CredentialReads.LoadsAreLinearizable | apps/desktop/src/main/translation/provider-credential-store.ts:170-185 | with effects at the call, a load that returns gives the plaintext stored at its last generation check, and no mutation took effect since its read |
| CredentialReads.ReturnIsStored | apps/desktop/src/main/translation/provider-credential-store.ts:170-185 | the same for one step on any sound state |
| CredentialReads.StaleStateIsReached | apps/desktop/src/main/translation/provider-credential-store.ts:284-295 | with late effects, a run to a load that has read while an older write is still to land |
| CredentialReads.LateEffectsMakeLoadsStale | apps/desktop/src/main/translation/provider-credential-store.ts:170-185 | from there the load returns what is stored no longer |
| CredentialOutcomes.MutationsEndExactly | apps/desktop/src/main/translation/provider-credential-store.ts:140-207 | over every run: a save or delete that ended succeeded if and only if no call of its own failed and no newer save or delete began before its write completed; it failed exactly when a call of its own failed, for a save only if none had begun before its end; otherwise it was superseded |
| CredentialOutcomes.LoadsEndExactly | apps/desktop/src/main/translation/provider-credential-store.ts:170-185 | over every run: a load that ended returned if and only if no call of its own failed, no save or delete began before its end, and the one it began after was done at its first check; with such a one it was superseded, else failed |
| CredentialOutcomes.NobodyIsStuck | apps/desktop/src/main/translation/provider-credential-store.ts:140-267 | in every run each task that has not ended waits for an action that can go well, or stands in the write tail behind an older task that does |
| CredentialOutcomes.OwnActionsCount | apps/desktop/src/main/translation/provider-credential-store.ts:140-267 | each action a task waits for takes it further and no other takes it back, so that at most eight end it |
| CredentialOutcomes.UncontestedMutationsSucceed | apps/desktop/src/main/translation/provider-credential-store.ts:140-207 | with nothing queued, a save whose calls go well succeeds and is stored, and a delete leaves nothing |
| CredentialOutcomes.UncontestedLoadReturns | apps/desktop/src/main/translation/provider-credential-store.ts:170-185 | with no mutation under way, a load whose calls go well returns what is stored |
| CredentialOutcomes.UncontestedLoadRotates | apps/desktop/src/main/translation/provider-credential-store.ts:209-267 | asked for a rotation it returns the same plaintext and leaves it stored under the new encryption |
| CredentialStore.SecretsRepository.ReplaceEncryptedIfCurrent | packages/storage/src/sqlite-storage.ts:275-301 | the row is replaced only when it still is the expected value |
| CredentialStore.ProviderCredentialStore.constructor | apps/desktop/src/main/translation/provider-credential-store.ts:102-111 | a store starts sound: no generation, nothing pending or queued |
| CredentialStore.ProviderCredentialStore.Save | apps/desktop/src/main/translation/provider-credential-store.ts:140-146 | a save begins and the store stays sound: queue in order, generations pending, what the newest mutation and the loads saw is what is stored |
| CredentialStore.ProviderCredentialStore.Load | apps/desktop/src/main/translation/provider-credential-store.ts:170-173 | a load begins with the current generation, and the store stays sound |
| CredentialStore.ProviderCredentialStore.Delete | apps/desktop/src/main/translation/provider-credential-store.ts:198-201 | a delete begins and queues behind every older write, and the store stays sound |
| CredentialStore.ProviderCredentialStore.ResumeChecking | apps/desktop/src/main/translation/provider-credential-store.ts:146-153 | availability settles: go on under the guard or fail; the store stays sound |
| CredentialStore.ProviderCredentialStore.ResumeEncryption | apps/desktop/src/main/translation/provider-credential-store.ts:153-155 | encryption settles: a save queues its write, a load swaps; the stored plaintext is the same after it, and the store stays sound |
| CredentialStore.ProviderCredentialStore.RunQueued | apps/desktop/src/main/translation/provider-credential-store.ts:155-157 | the head of the write tail checks its generation and calls the repository; the store stays sound |
| CredentialStore.ProviderCredentialStore.TakeEffect | apps/desktop/src/main/translation/provider-credential-store.ts:155-159 | a repository call takes effect at some moment after it was made, and the store stays sound |
| CredentialStore.ProviderCredentialStore.ResumeRepository | apps/desktop/src/main/translation/provider-credential-store.ts:157-159 | a repository call settles; when effects come at the call, a load that returns at it gives the plaintext that is stored; the store stays sound |
| CredentialStore.ProviderCredentialStore.ResumeDecryption | apps/desktop/src/main/translation/provider-credential-store.ts:230-253 | decryption settles, a second time after a rotation; when effects come at the call, a load that returns at it gives the plaintext that is stored; the store stays sound |
| CredentialStore.ProviderCredentialStore.Finally | apps/desktop/src/main/translation/provider-credential-store.ts:160-167 | when the newest save or delete ends in success, the row decrypts to its value or is gone, and no write is queued; the store stays sound |
| TranslationSession.NextIsIdeal | packages/application/src/translation-session.ts:134-231 | one event: the effects move a reader of the log from what the old state means to what the new one means |
| TranslationSession.LogFromTheStart | packages/application/src/translation-session.ts:134-231 | over any events the log tells exactly the card of the final state; at most one request is outstanding, exactly while translating, and each cancel names it |
| TranslationSession.TheUserSeesIt | packages/application/src/translation-session.ts:134-231 | over any events the log tells what a user without states sees: a selection, an answer to the request outstanding, a retry of the failed card, a cancel or a dismissal, and nothing else, changes card and request |
| TranslationSession.SelectionStarts | packages/application/src/translation-session.ts:134-166 | after a selection one request is outstanding if and only if translation is enabled and the id fits the pattern; it names this selection and this id, and the card is its translating card; otherwise the card shows the source alone |
| TranslationSession.RetryStarts | packages/application/src/translation-session.ts:200-219 | after a retry the failed card's own selection is requested under the new id if that is new and fits; otherwise nothing changed |
| TranslationSession.IdsAreIdentifiers | packages/contracts/src/translation.ts:102-145 | the ids taken are a letter or digit and at most 127 letters, digits, points, underscores, colons or hyphens |
| TranslationSession.UuidIsRequestId | apps/desktop/src/main/translation/translation-controller.ts:83 | every id randomUUID gives fits the pattern |
| TranslationSession.NextAppIsIdeal | packages/application/src/selection-state-machine.ts:93-251 | the same for one application event, native effects in between |
| TranslationSession.AppLogFromTheStart | packages/application/src/selection-state-machine.ts:67-251 | over any application events: the log tells the card and the one request, translating needs translation enabled, shutting down leaves nothing |
| TranslationSession.TheUserSeesTheApp | packages/application/src/selection-state-machine.ts:93-251 | one event more in any run of the application: the log goes on to tell what the user is to see, selections and retries counting only while listening |
| TranslationSession.HostIsTold | packages/application/src/selection-state-machine.ts:93-251 | the host is told to start exactly when its start begins to be awaited, to stop exactly when its stop is, to shut down once, and is reconnected when lost; it is told nothing else |
| TranslationSession.ListeningIsReached | packages/application/src/selection-state-machine.ts:97-168 | asked for, the application listens once the host is ready and has started; switched off it goes idle when stopped, and switched on again it listens after its next start |
| TranslationSession.ListeningComesBack | packages/application/src/selection-state-machine.ts:113-150 | switched on again after a fault or while it stops, it listens after the next start |
| TranslationSession.FaultIsKept | packages/application/src/selection-state-machine.ts:125-147 | an unrecoverable host error ends listening and the session and is kept until the host is ready; a recoverable one is only kept |
| TranslationSession.SwitchesStand | packages/application/src/selection-state-machine.ts:93-251 | until shutdown the switches for translation, listening and host are as the events left them; after it nothing changes |
| TranslationController.StepKeeps | apps/desktop/src/main/translation/translation-controller.ts:94-223 | every step keeps the session's own request active and every other one over |
| TranslationController.SessionOwnsTheRequest | apps/desktop/src/main/translation/translation-controller.ts:94-223 | in every run the screen shows the session's card, a translating session has its own active request, all others are aborted or settled, and each provider call was allowed in its turn |
| TranslationController.NoLateResultIsShown | apps/desktop/src/main/translation/translation-controller.ts:175-192 | a settlement, deadline or reaction of any request but the awaited one changes neither session nor card |
| TranslationController.ForgottenStaysForgotten | apps/desktop/src/main/translation/translation-controller.ts:94-223 | a request the session stopped waiting for is never waited for again |
| TranslationController.TheAnswerIsShown | apps/desktop/src/main/translation/translation-controller.ts:175-187 | the awaited reaction ends the waiting and shows the card of its own selection: the translation, a retryable timeout once the deadline passed, or the provider's failure |
| TranslationController.SelectionIsTranslated | apps/desktop/src/main/translation/translation-controller.ts:94-104 | a selection, in any run: allowed in that turn and under a valid new id, its request is issued and active with its translating card, otherwise no call is added and the source alone is shown |
| TranslationController.RetryIsTranslated | apps/desktop/src/main/translation/translation-controller.ts:106-114 | a retry of a failed session, allowed and under a valid new id, is issued for the same selection; any other changes nothing |
| TranslationController.AnswerArrives | apps/desktop/src/main/translation/translation-controller.ts:138-192 | whatever the provider answers to an undecided awaited request is shown when heard, and a retryable network failure when the deadline passes instead |
| TranslationController.DismissalIsDone | apps/desktop/src/main/translation/translation-controller.ts:117-125 | a dismissal leaves no session and no card, and every request over; one still undecided is decided as cancelled |
| TranslationController.DecidedStays | apps/desktop/src/main/translation/translation-controller.ts:138-192 | once the race between provider and signal is decided its outcome stays, whatever happens |
| TranslationController.CleanedUp | apps/desktop/src/main/translation/translation-controller.ts:188-192 | the finally block of a request frees it if it is active and touches no other; an active request is one whose finally block has not run |
| TranslationController.Controller.ApplyTransition | apps/desktop/src/main/translation/translation-controller.ts:195-201 | the loop executes the effects in order on the new session |
| TranslationController.Controller.ExecuteEffect | apps/desktop/src/main/translation/translation-controller.ts:203-223 | each effect on signal, active request and screen |
| TranslationController.Controller.OnSelection | apps/desktop/src/main/translation/translation-controller.ts:94-104 | a selection is one step |
| TranslationController.Controller.OnRetry | apps/desktop/src/main/translation/translation-controller.ts:106-114 | a retry is one step, and nothing unless failed and allowed |
| TranslationController.Controller.OnDismiss | apps/desktop/src/main/translation/translation-controller.ts:117-125 | a dismissal is one step |
| TranslationController.Controller.OnDeadline | apps/desktop/src/main/translation/translation-controller.ts:145-148 | the deadline marks the request and aborts it |
| TranslationController.Controller.OnRaceDecided | apps/desktop/src/main/translation/translation-controller.ts:175-187 | the reaction to the race is one step |
| TranslationController.Controller.OnFinally | apps/desktop/src/main/translation/translation-controller.ts:188-192 | the active request is cleared only by its own finally block |
| BallPosition.NearestIsBest | apps/desktop/src/main/ui-shell/ball-position.ts:82-104 | the display chosen overlaps most, and when none overlaps its work area is nearest to the centre |
| BallPosition.OverlapIsShared | apps/desktop/src/main/ui-shell/ball-position.ts:72-80 | the overlap of two rectangles is the area of the rectangle of the points both hold |
| BallPosition.DistanceIsLeast | apps/desktop/src/main/ui-shell/ball-position.ts:64-70 | the distance to a rectangle is the least squared distance to any of its points, and reached |
| BallPosition.PlacementIsInside | apps/desktop/src/main/ui-shell/ball-position.ts:106-136 | the ball comes to lie inside the margin of the display chosen |
| BallPosition.PlacementIsNearest | apps/desktop/src/main/ui-shell/ball-position.ts:106-136 | without edge snap no whole-number position inside the margin is nearer to the requested one, in x and in y, the greater one at equal distance; with edge snap x is the edge nearer to the requested x, the left one at equal distance |
| BallPosition.PlacingAgainChangesNothing | apps/desktop/src/main/ui-shell/ball-position.ts:106-136 | placing the resulting bounds again gives the same bounds |
| BallPosition.AnchorIsStableExactly | apps/desktop/src/main/ui-shell/ball-position.ts:106-136 | the whole placement comes back exactly when the clamped vertical position is whole or has no travel and, without edge snap, rounding does not carry the ball across the middle of its travel |
| BallPosition.WholeRequestsSurvive | apps/desktop/src/main/ui-shell/ball-position.ts:106-136 | whole-number requests are never moved by rounding |
| BallPosition.RoundingMovesTheAnchor | apps/desktop/src/main/ui-shell/ball-position.ts:106-136 | a fractional request whose vertical ratio changes when its bounds are placed again |
| BallPosition.RoundingFlipsTheEdge | apps/desktop/src/main/ui-shell/ball-position.ts:106-136 | a fractional request just right of the middle whose edge changes when its bounds are placed again |
| BallPosition.ResolvingTheAnchor | apps/desktop/src/main/ui-shell/ball-position.ts:45-62 | the derived anchor resolves to the placement's bounds exactly with edge snap or for a request at its edge |
| BallPosition.ResolvingIsInside | apps/desktop/src/main/ui-shell/ball-position.ts:37-62 | every anchor with a ratio between 0 and 1, or none, resolves to bounds inside the margin; without one at the right of the first display |
| BallPosition.ResolvingIsNearest | apps/desktop/src/main/ui-shell/ball-position.ts:37-62 | an anchor resolves to its edge of the display it names, or the first, at the whole height nearest to its ratio of the travel |
| NearestRank.SortIs | apps/desktop/src/main/metrics/metrics-summary.ts:52 | sorting keeps every sample and orders them |
| NearestRank.RefusedExactly | apps/desktop/src/main/metrics/metrics-summary.ts:44-51 | refused are no samples, a percentile that is not above 0 and at most 1, and a negative sample, and nothing else |
| NearestRank.NearestRankIsLeast | apps/desktop/src/main/metrics/metrics-summary.ts:44-55 | the nearest rank is a sample with at least p * n samples not above it, and no smaller value has as many |
| NearestRank.RanksGrow | apps/desktop/src/main/metrics/metrics-summary.ts:44-55 | a smaller percentile has a smaller or equal rank |
| NearestRank.WholeIsMax | apps/desktop/src/main/metrics/metrics-summary.ts:44-55 | the rank of the whole is the largest sample |
| NearestRank.RankPermuted | apps/desktop/src/main/metrics/metrics-summary.ts:44-55 | the order of the samples does not matter |
| MetricsSummary.SameKeyExactly | apps/desktop/src/main/metrics/metrics-summary.ts:132-146 | two valid samples have the same joined key exactly when all eleven fields agree |
| MetricsSummary.GroupSamples | apps/desktop/src/main/metrics/metrics-summary.ts:67-73 | the loop fills the map as specified |
| MetricsSummary.GroupedPartitions | apps/desktop/src/main/metrics/metrics-summary.ts:67-73 | each key once, with all its samples in order, and no empty group |
| MetricsSummary.GroupsAreClasses | apps/desktop/src/main/metrics/metrics-summary.ts:67-73 | two samples share a group exactly when they agree on the eleven fields |
| MetricsSummary.GroupingConserves | apps/desktop/src/main/metrics/metrics-summary.ts:57-130 | group sizes and failure counts add up to the input's |
| MetricsSummary.SummaryIsOrdered | apps/desktop/src/main/metrics/metrics-summary.ts:109-130 | p50 is at most p95, and p95 at most the maximum |
| MetricsSummary.SummaryIsExact | apps/desktop/src/main/metrics/metrics-summary.ts:109-130 | the summary of a group holds its key, how many samples it has, the least sample that covers one half and the least that covers 19 out of 20, the largest, and how many failed |
| MetricsSummary.OrderDoesNotMatter | apps/desktop/src/main/metrics/metrics-summary.ts:57-130 | permuting the samples changes no summary |
| MetricsSummary.Summarize | apps/desktop/src/main/metrics/metrics-summary.ts:57-88 | the errors for empty input and for exactly the invalid samples, and one summary for each group |

## Left out

- Utf16.CheckRanges: leaves out the optional text and rectangles of a range; comparing normalized text needs Unicode normalization.
- JsonStrings.ParseString: works on any integers from 0 up as octets, which includes every C++ string.
- EnvelopeCodec.ReadFields: error messages are left out, error codes are not; `std::from_chars` and `std::to_string` are functions of `Decimals`.
- FrameCodec.FrameDecoder.Feed: lengths are unbounded integers; a header is below 2^32 by its four octets, and the size of the buffer in memory is not limited.
- DesktopFrames.DesktopDecoder.Transform: what a payload reads as is a parameter here, which `DesktopAcceptance.Classify` fills in; whether the consumer still gets values pushed before an error of the stream is the stream's own business.
- DesktopAcceptance.AcceptedExactly: `TextDecoder` is UTF-8 decoding without a byte order mark at the start, `JSON.parse` the grammar of RFC 8259; stated for values of the native grammar without white space around them, which is what the host sends.
- JsonScanner.AssertJsonComplexityAndUniqueKeys: stated for texts that are valid JSON, as it is called only after `JSON.parse` succeeded; the tree is a ghost argument.
- ScannedText.NumberScanned: the regular expression is a function that takes each optional group greedily when complete.
- SpscQueue.StepKeeps: memory ordering is taken as sufficient; steps interleave and are never reordered. `empty()` is left out.
- EventTransport.WireIsOrdered: event numbers grow as long as fewer than 2^64 were given; `last_sequence` and the stop flags are left out, and a connect is possible whenever there is no connection.
- EventPipe.Pipe.Send: `WriteFile` and the wait for it are an oracle that transfers any positive count or fails after any count.
- EventDelivery.EventsReachTheClient: messages are well-formed and fewer than 2^53 numbers were given; the field checks of `isNativeMessage` are left out, so that the inputs of the client stand for the documents emitted by their numbers only.
- HostClient.EachRequestSettlesOnce: the promise is the one in the table; when `encodeFrame` or `socket.write` throws after it has entered, the caller sees that error instead and the entry waits for its timeout. Message contents beyond id, method, sequence and the pointer-down capability are left out.
- CredentialSafety.LatestMutationWins: encryption is abstract with decryption as its inverse, and a failed call may or may not have taken effect; `getStatus` with its timeout and the validation of credentials are left out.
- CredentialStore.ProviderCredentialStore.ResumeEncryption: continuations of nested async functions run in one step; microtasks in between are left out, error kinds are superseded or not.
- CredentialStore.SecretsRepository.ReplaceEncryptedIfCurrent: one row, compared as a whole; key, scheme and timestamp columns are left out.
- TranslationController.SessionOwnsTheRequest: request ids are new and the provider echoes ids; providers do not throw before they return a promise, and `presentCard` does not throw.
- TranslationController.Controller.OnSelection: text normalization, languages and the clock are left out.
- TranslationSession.LogFromTheStart: selections and results carry the fields cards show, others are left out.
- BallPosition.PlacementIsInside: exact reals instead of floating point; an empty list of displays is an error in the source and excluded here.
- MetricsSummary.SameKeyExactly: of the sample guard, only that the fields hold no control separator, a checksum is not empty and values are not negative.
- MetricsSummary.Summarize: groups come in the order they were met; the order `localeCompare` gives is not modelled, and percentiles are exact fractions.
- NearestRank.RanksGrow: 0.5 and 0.95 are the fractions 1/2 and 19/20.
- FindJson helpers of envelope.cpp, field-by-field contract validators, settings repositories, migrations, Win32, UI Automation, OCR, windows, IPC registration and the Baidu client: outside this model.
