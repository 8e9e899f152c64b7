/** Length-prefixed frames on a byte stream: native/selection-host/src/core/frame_codec.cpp. */
module FrameCodec {
  import opened Basics
  import opened JsonStrings

  const MAX_FRAME_BYTES: nat := 1024 * 1024

  datatype Failure = MalformedFrame | FrameTooLarge

  // ----- The stream as frames -----

  /** Four octets, least significant first. */
  function Header(n: nat): (r: Text)
    ensures |r| == 4
  {
    [n % 256, n / 256 % 256, n / 65536 % 256, n / 16777216 % 256]
  }

  function LengthAt(s: Text): int
    requires |s| >= 4
  {
    s[0] + 256 * s[1] + 65536 * s[2] + 16777216 * s[3]
  }

  /** frames were complete; rest was not taken; failure says what a bad header at the start of rest is. */
  datatype Drained = Drained(frames: seq<Text>, rest: Text, failure: Option<Failure>)

  function Prepend(frame: Text, d: Drained): Drained {
    d.(frames := [frame] + d.frames)
  }

  function Drain(s: Text, limit: nat): Drained
    decreases |s|
  {
    if |s| < 4 then Drained([], s, None)
    else
      var length := LengthAt(s);
      if length == 0 then Drained([], s, Some(MalformedFrame))
      else if length > limit then Drained([], s, Some(FrameTooLarge))
      else if length < 0 || |s| < 4 + length then Drained([], s, None)
      else Prepend(s[4..4 + length], Drain(s[4 + length..], limit))
  }

  // ----- Encoding -----

  function Frame(payload: Text): Text {
    Header(|payload|) + payload
  }

  function Stream(payloads: seq<Text>): Text {
    if payloads == [] then [] else Frame(payloads[0]) + Stream(payloads[1..])
  }

  /** None stands for the length error thrown. */
  method EncodeFrame(json: bytes) returns (frame: Option<Text>)
    ensures frame == if |json| > MAX_FRAME_BYTES then None else Some(Frame(json))
  {
    if |json| > MAX_FRAME_BYTES || |json| > 0xFFFF_FFFF { return None; }
    var size := |json|;
    var octets := [size % 256];
    octets := octets + [size / 256 % 256];
    octets := octets + [size / 65536 % 256];
    octets := octets + [size / 16777216 % 256];
    assert octets == Header(size);
    return Some(octets + json);
  }

  // ----- The decoder -----

  /** What the decoder holds between two calls. */
  datatype Decoder = Decoder(buffer: Text, failure: Option<Failure>)

  /** A failure, or the frames of this call. */
  datatype Result = Result(error: Option<Failure>, frames: seq<Text>)

  const EMPTY: Decoder := Decoder([], None)

  function Fed(d: Decoder, chunk: Text, limit: nat): Decoder {
    if d.failure.Some? then d
    else
      var all := Drain(d.buffer + chunk, limit);
      if all.failure.Some? then Decoder(d.buffer + chunk, all.failure) else Decoder(all.rest, None)
  }

  function Delivered(d: Decoder, chunk: Text, limit: nat): Result {
    if d.failure.Some? then Result(d.failure, [])
    else
      var all := Drain(d.buffer + chunk, limit);
      if all.failure.Some? then Result(all.failure, []) else Result(None, all.frames)
  }

  class FrameDecoder {
    const maximumFrameBytes: nat
    var buffer: seq<byte>
    var failure: Option<Failure>

    function State(): Decoder
      reads this
    {
      Decoder(buffer, failure)
    }

    constructor (maximumFrameBytes: nat)
      ensures State() == EMPTY && this.maximumFrameBytes == maximumFrameBytes
    {
      this.maximumFrameBytes := maximumFrameBytes;
      buffer, failure := [], None;
    }

    method Feed(chunk: bytes) returns (result: Result)
      modifies this
      ensures State() == Fed(old(State()), chunk, maximumFrameBytes)
      ensures result == Delivered(old(State()), chunk, maximumFrameBytes)
    {
      hide LengthAt, Drain;
      if failure != None { return Result(failure, []); }
      buffer := buffer + chunk;
      var frames: seq<Text> := [];
      var offset := 0;
      ghost var all := Drain(buffer, maximumFrameBytes);
      assert buffer[0..] == buffer;
      while |buffer| - offset >= 4
        invariant offset <= |buffer| && buffer == old(buffer) + chunk && failure == None
        invariant var left := Drain(buffer[offset..], maximumFrameBytes);
                  all == Drained(frames + left.frames, left.rest, left.failure)
      {
        var length := LengthAt(buffer[offset..]);
        LengthIsNatural(buffer[offset..]);
        DrainTurn(buffer, offset, maximumFrameBytes);
        if length == 0 {
          failure := Some(MalformedFrame);
          return Result(failure, []);
        }
        if length > maximumFrameBytes {
          failure := Some(FrameTooLarge);
          return Result(failure, []);
        }
        var fullSize := 4 + length;
        if |buffer| - offset < fullSize { break; }
        frames := frames + [buffer[offset + 4..offset + fullSize]];
        offset := offset + fullSize;
      }
      DrainTurn(buffer, offset, maximumFrameBytes);
      if offset != 0 { buffer := buffer[offset..]; }
      return Result(None, frames);
    }

    method Reset()
      modifies this
      ensures State() == EMPTY
    {
      buffer, failure := [], None;
    }
  }

  /** One turn of the decoder's loop, at offset. */
  lemma DrainTurn(s: Text, offset: nat, limit: nat)
    requires offset <= |s|
    ensures var d := Drain(s[offset..], limit);
            if |s| - offset < 4 then d == Drained([], s[offset..], None)
            else
              var length := LengthAt(s[offset..]);
              && (length == 0 ==> d == Drained([], s[offset..], Some(MalformedFrame)))
              && (length > limit ==> d == Drained([], s[offset..], Some(FrameTooLarge)))
              && (0 < length <= limit ==>
                    if |s| - offset < 4 + length then d == Drained([], s[offset..], None)
                    else d == Prepend(s[offset + 4..offset + 4 + length], Drain(s[offset + 4 + length..], limit)))
  {
    hide LengthAt;
    if |s| - offset >= 4 {
      var length := LengthAt(s[offset..]);
      if 0 < length <= limit && |s| - offset >= 4 + length {
        assert s[offset..][4..4 + length] == s[offset + 4..offset + 4 + length];
        assert s[offset..][4 + length..] == s[offset + 4 + length..];
      }
    }
  }

  lemma LengthIsNatural(s: bytes)
    requires |s| >= 4
    ensures LengthAt(s) >= 0
  {
  }

  // ----- Headers -----

  lemma Octet(n: nat)
    ensures n == n / 256 * 256 + n % 256
  {
  }

  lemma HeaderReadsBack(n: nat, tail: Text)
    requires n < 0x1_0000_0000
    ensures LengthAt(Header(n) + tail) == n
  {
    var s := Header(n) + tail;
    assert s[0] == n % 256 && s[1] == n / 256 % 256 && s[2] == n / 65536 % 256 && s[3] == n / 16777216 % 256;
    Octet(n);
    Octet(n / 256);
    Octet(n / 65536);
    assert n / 256 / 256 == n / 65536 && n / 65536 / 256 == n / 16777216;
  }

  lemma HeaderIsUnique(s: Text)
    requires |s| >= 4 && IsOctets(s)
    ensures 0 <= LengthAt(s) < 0x1_0000_0000 && s[..4] == Header(LengthAt(s))
  {
    var n := LengthAt(s);
    var n1 := s[1] + 256 * s[2] + 65536 * s[3];
    var n2 := s[2] + 256 * s[3];
    Split(s[0], n1);
    Split(s[1], n2);
    Split(s[2], s[3]);
    assert n / 65536 == n / 256 / 256 && n / 16777216 == n / 65536 / 256;
  }

  lemma Split(low: int, high: nat)
    requires 0 <= low < 256
    ensures (low + 256 * high) % 256 == low && (low + 256 * high) / 256 == high
  {
  }

  // ----- A stream that grows -----

  /** What was drained stays drained when more arrives. */
  lemma {:induction false} DrainGrows(s: Text, more: Text, limit: nat)
    ensures var d, longer := Drain(s, limit), Drain(s + more, limit);
            if d.failure.Some? then longer == Drained(d.frames, d.rest + more, d.failure)
            else var next := Drain(d.rest + more, limit);
                 longer == Drained(d.frames + next.frames, next.rest, next.failure)
    decreases |s|
  {
    if |s| >= 4 {
      SameLength(s, more);
      var length := LengthAt(s);
      hide LengthAt;
      if 0 < length <= limit && |s| >= 4 + length {
        assert (s + more)[4..4 + length] == s[4..4 + length];
        assert (s + more)[4 + length..] == s[4 + length..] + more;
        DrainGrows(s[4 + length..], more, limit);
      }
    }
  }

  lemma SameLength(s: Text, more: Text)
    requires |s| >= 4
    ensures LengthAt(s + more) == LengthAt(s)
  {
    assert forall k | 0 <= k < 4 :: (s + more)[k] == s[k];
  }

  lemma {:induction false} DrainTwice(s: Text, limit: nat)
    requires Drain(s, limit).failure.None?
    ensures Drain(Drain(s, limit).rest, limit) == Drained([], Drain(s, limit).rest, None)
    decreases |s|
  {
    hide LengthAt;
    if |s| >= 4 {
      var length := LengthAt(s);
      if 0 < length <= limit && |s| >= 4 + length { DrainTwice(s[4 + length..], limit); }
    }
  }

  // ----- Any split gives the same -----

  function Whole(chunks: seq<Text>): Text {
    if chunks == [] then [] else chunks[0] + Whole(chunks[1..])
  }

  function FedAll(d: Decoder, chunks: seq<Text>, limit: nat): Decoder
    decreases |chunks|
  {
    if chunks == [] then d else FedAll(Fed(d, chunks[0], limit), chunks[1..], limit)
  }

  function DeliveredAll(d: Decoder, chunks: seq<Text>, limit: nat): seq<Text>
    decreases |chunks|
  {
    if chunks == [] then []
    else Delivered(d, chunks[0], limit).frames + DeliveredAll(Fed(d, chunks[0], limit), chunks[1..], limit)
  }

  lemma {:induction false} FailedStays(d: Decoder, chunks: seq<Text>, limit: nat)
    requires d.failure.Some?
    ensures FedAll(d, chunks, limit) == d && DeliveredAll(d, chunks, limit) == []
    decreases |chunks|
  {
    if chunks != [] { FailedStays(d, chunks[1..], limit); }
  }

  /** Feeding chunks to a decoder that holds s is draining s and all of them at once. */
  lemma {:induction false} FedAllIs(s: Text, chunks: seq<Text>, limit: nat)
    requires Drain(s, limit) == Drained([], s, None)
    ensures var d, after := Drain(s + Whole(chunks), limit), FedAll(Decoder(s, None), chunks, limit);
            && after.failure == d.failure && DeliveredAll(Decoder(s, None), chunks, limit) <= d.frames
            && (d.failure.None? ==> after.buffer == d.rest && DeliveredAll(Decoder(s, None), chunks, limit) == d.frames)
    decreases |chunks|
  {
    hide LengthAt, Drain;
    if chunks == [] {
      assert s + [] == s;
    } else {
      var grown, rest := s + chunks[0], Whole(chunks[1..]);
      assert s + Whole(chunks) == grown + rest;
      DrainGrows(grown, rest, limit);
      if Drain(grown, limit).failure.Some? {
        FailedStays(Fed(Decoder(s, None), chunks[0], limit), chunks[1..], limit);
      } else {
        DrainTwice(grown, limit);
        FedAllIs(Drain(grown, limit).rest, chunks[1..], limit);
      }
    }
  }

  /**
   * However a stream is split, the error is that of one call on the whole of it; without an error so are the frames
   * and what is left over, and with one the frames delivered are some of those before the bad header.
   */
  lemma ChunkingDoesNotMatter(chunks: seq<Text>, limit: nat)
    ensures var whole := Whole(chunks);
            var once, split := Fed(EMPTY, whole, limit), FedAll(EMPTY, chunks, limit);
            && split.failure == once.failure
            && (once.failure.None? ==> split.buffer == once.buffer
                                       && DeliveredAll(EMPTY, chunks, limit) == Delivered(EMPTY, whole, limit).frames)
            && (once.failure.Some? ==> DeliveredAll(EMPTY, chunks, limit) <= Drain(whole, limit).frames)
  {
    FedAllIs([], chunks, limit);
    assert [] + Whole(chunks) == Whole(chunks);
  }

  /** What is left over between calls is always less than one frame. */
  lemma {:induction false} LeftoverIsShort(s: Text, limit: nat)
    requires IsOctets(s) && Drain(s, limit).failure.None?
    ensures |Drain(s, limit).rest| < 4 + limit
    decreases |s|
  {
    hide LengthAt;
    if |s| >= 4 {
      HeaderIsUnique(s);
      var length := LengthAt(s);
      if |s| >= 4 + length { LeftoverIsShort(s[4 + length..], limit); }
    }
  }

  /**
   * Why draining stops: at a header of four zeros, at a header that announces more than the limit, or because a header
   * or its payload is not there yet.
   */
  lemma {:induction false} StopsExactly(s: Text, limit: nat)
    requires IsOctets(s)
    ensures var d := Drain(s, limit);
            && (d.failure == Some(MalformedFrame) <==> |d.rest| >= 4 && d.rest[..4] == [0, 0, 0, 0])
            && (d.failure == Some(FrameTooLarge) <==> |d.rest| >= 4 && LengthAt(d.rest) > limit)
            && (d.failure == None <==>
                |d.rest| < 4 || (0 < LengthAt(d.rest) <= limit && |d.rest| < 4 + LengthAt(d.rest)))
    decreases |s|
  {
    if |s| >= 4 {
      LengthIsNatural(s);
      assert LengthAt(s) == 0 <==> s[..4] == [0, 0, 0, 0];
      hide LengthAt;
      var length := LengthAt(s);
      if 0 < length <= limit && |s| >= 4 + length { StopsExactly(s[4 + length..], limit); }
    }
  }

  // ----- Decoding and encoding are inverse -----

  predicate InLimit(payloads: seq<Text>, limit: nat) {
    forall p | p in payloads :: |p| <= limit
  }

  lemma DrainFrame(payload: Text, tail: Text, limit: nat)
    requires |payload| <= limit < 0x1_0000_0000
    ensures Drain(Frame(payload) + tail, limit) ==
            if payload == [] then Drained([], Frame(payload) + tail, Some(MalformedFrame))
              else Prepend(payload, Drain(tail, limit))
  {
    var s := Frame(payload) + tail;
    assert s == Header(|payload|) + (payload + tail);
    HeaderReadsBack(|payload|, payload + tail);
    hide LengthAt, Header;
    assert s[4..4 + |payload|] == payload && s[4 + |payload|..] == tail;
  }

  lemma {:induction false} DrainStream(payloads: seq<Text>, tail: Text, limit: nat)
    requires InLimit(payloads, limit) && limit < 0x1_0000_0000
    ensures [] !in payloads ==>
              var d := Drain(tail, limit);
              Drain(Stream(payloads) + tail, limit) == Drained(payloads + d.frames, d.rest, d.failure)
    ensures [] in payloads ==> Drain(Stream(payloads) + tail, limit).failure == Some(MalformedFrame)
    decreases |payloads|
  {
    hide Drain, Frame;
    if payloads == [] {
      assert Stream(payloads) + tail == tail;
    } else {
      var rest := payloads[1..];
      assert Stream(payloads) + tail == Frame(payloads[0]) + (Stream(rest) + tail);
      DrainFrame(payloads[0], Stream(rest) + tail, limit);
      DrainStream(rest, tail, limit);
      assert payloads == [payloads[0]] + rest;
    }
  }

  /**
   * Payloads within the limit come back from any split exactly when none is empty: the encoder lets an
   * empty one pass.
   */
  lemma EncodedComesBack(payloads: seq<Text>, chunks: seq<Text>, limit: nat)
    requires InLimit(payloads, limit) && limit < 0x1_0000_0000 && Whole(chunks) == Stream(payloads)
    ensures var after := FedAll(EMPTY, chunks, limit);
            if [] !in payloads then after == EMPTY && DeliveredAll(EMPTY, chunks, limit) == payloads
            else after.failure == Some(MalformedFrame)
  {
    hide Drain;
    DrainStream(payloads, [], limit);
    assert Stream(payloads) + [] == Stream(payloads);
    DrainNothing(limit);
    ChunkingDoesNotMatter(chunks, limit);
    assert EMPTY.buffer + Whole(chunks) == Stream(payloads);
  }

  lemma DrainNothing(limit: nat)
    ensures Drain([], limit) == Drained([], [], None)
  {
  }

  /** What the decoder delivers, encoded again, is what it read. */
  lemma {:induction false} DrainedComesBack(s: Text, limit: nat)
    requires IsOctets(s)
    ensures var d := Drain(s, limit);
            s == Stream(d.frames) + d.rest && InLimit(d.frames, limit) && [] !in d.frames
    decreases |s|
  {
    hide Drain, LengthAt, IsOctets, Frame;
    DrainTurn(s, 0, limit);
    assert s[0..] == s;
    var d := Drain(s, limit);
    if d.frames == [] {
      if |s| >= 4 { HeaderIsUnique(s); }
      assert [] + s == s;
    } else {
      var length := FirstFrame(s, limit);
      DrainedComesBack(s[4 + length..], limit);
      assert d.frames[1..] == Drain(s[4 + length..], limit).frames;
    }
  }

  lemma FirstFrame(s: Text, limit: nat) returns (length: nat)
    requires IsOctets(s) && Drain(s, limit).frames != []
    ensures 0 < length <= limit && 4 + length <= |s| && s == Frame(s[4..4 + length]) + s[4 + length..]
            && IsOctets(s[4 + length..])
    ensures Drain(s, limit) == Prepend(s[4..4 + length], Drain(s[4 + length..], limit))
  {
    HeaderIsUnique(s);
    hide LengthAt, Header;
    length := LengthAt(s);
    assert s == s[..4] + s[4..4 + length] + s[4 + length..];
  }
}
