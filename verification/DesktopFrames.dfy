/**
 * The desktop's frame decoder, the stream transform of apps/desktop/src/main/native-host/frame-codec.ts, and its
 * agreement with the native one. What decoding, parsing and the complexity scan make of a payload is a parameter.
 */
module DesktopFrames {
  import opened Basics
  import opened JsonStrings
  import opened FrameCodec

  /** Refused by the decoder, the parser or the scan; the JSON value null; or any other value. */
  datatype Verdict = Refused | Null | Value

  /**
   * What one call pushes downstream and keeps, whether the readable side has ended, and whether the stream failed.
   * Pushing null ends the readable side: nothing is emitted, and every value pushed from then on is an error of the
   * stream.
   */
  datatype Turn = Turn(pushed: seq<Text>, buffered: Text, ended: bool, failed: bool)

  /** A value is pushed: delivered, or an error after the end. The loop goes on in both cases. */
  function Push(frame: Text, ended: bool, t: Turn): Turn {
    if ended then t.(failed := true) else t.(pushed := [frame] + t.pushed)
  }

  function Emit(s: Text, ended: bool, read: Text -> Verdict): Turn
    decreases |s|
  {
    if |s| < 4 then Turn([], s, ended, false)
    else
      var length := LengthAt(s);
      if length == 0 || length > MAX_FRAME_BYTES then Turn([], s, ended, true)
      else if length < 0 || |s| < 4 + length then Turn([], s, ended, false)
      else EmitFrame(s[4..4 + length], s, s[4 + length..], ended, read)
  }

  function EmitFrame(body: Text, s: Text, rest: Text, ended: bool, read: Text -> Verdict): Turn
    requires |rest| < |s|
    decreases |s|, 0
  {
    match read(body)
    case Refused => Turn([], s, ended, true)
    case Null => Emit(rest, true, read)
    case Value => Push(body, ended, Emit(rest, ended, read))
  }

  class DesktopDecoder {
    var buffered: seq<byte>
    /** The readable side of the stream. */
    var ended: bool

    constructor ()
      ensures buffered == [] && !ended
    {
      buffered, ended := [], false;
    }

    /**
     * Values pushed before an error stay pushed, and a push after the end does not stop the loop. The final size check
     * never fires: see LeftoverIsShort.
     */
    method Transform(chunk: bytes, read: Text -> Verdict) returns (pushed: seq<Text>, failed: bool)
      modifies this
      ensures Turn(pushed, buffered, ended, failed) == Emit(old(buffered) + chunk, old(ended), read)
    {
      hide LengthAt, Emit, SoFar;
      pushed, failed := [], false;
      buffered := buffered + chunk;
      ghost var all := Emit(buffered, ended, read);
      NothingYet(buffered, ended, read);
      while |buffered| >= 4
        invariant SoFar(all, Turn(pushed, buffered, ended, failed), read)
        decreases |buffered|
      {
        LoopTurns(all, Turn(pushed, buffered, ended, failed), read);
        var length := LengthAt(buffered);
        LengthIsNatural(buffered);
        if length == 0 || length > MAX_FRAME_BYTES { return pushed, true; }
        if |buffered| < 4 + length { break; }
        var body := buffered[4..4 + length];
        match read(body) {
          case Refused => return pushed, true;
          case Null => ended := true;
          case Value => if ended { failed := true; } else { pushed := pushed + [body]; }
        }
        buffered := buffered[4 + length..];
      }
      LoopTurns(all, Turn(pushed, buffered, ended, failed), read);
      if |buffered| > MAX_FRAME_BYTES + 4 {
        OctetsOf(buffered);
        EmitIsDrain(buffered, ended, read);
        LeftoverIsShort(buffered, MAX_FRAME_BYTES);
        return pushed, true;
      }
    }

    /** The stream ends: an error when a frame is incomplete. */
    method Flush() returns (failed: bool)
      ensures failed == (buffered != [])
    {
      failed := |buffered| != 0;
    }
  }

  lemma OctetsOf(s: bytes)
    ensures IsOctets(s)
  {
  }

  /** One turn of the loop. */
  lemma EmitTurn(s: Text, ended: bool, read: Text -> Verdict)
    ensures var t := Emit(s, ended, read);
            if |s| < 4 then t == Turn([], s, ended, false)
            else
              var length := LengthAt(s);
              && (length == 0 || length > MAX_FRAME_BYTES ==> t == Turn([], s, ended, true))
              && (length < 0 ==> t == Turn([], s, ended, false))
              && (0 < length <= MAX_FRAME_BYTES ==>
                    if |s| < 4 + length then t == Turn([], s, ended, false)
                    else
                      var body, rest := s[4..4 + length], s[4 + length..];
                      match read(body)
                      case Refused => t == Turn([], s, ended, true)
                      case Null => t == Emit(rest, true, read)
                      case Value => t == Push(body, ended, Emit(rest, ended, read)))
  {
    hide LengthAt;
  }

  /** What the loop has done, followed by what is left for it to do, is the whole call. */
  predicate SoFar(all: Turn, t: Turn, read: Text -> Verdict) {
    var left := Emit(t.buffered, t.ended, read);
    all == Turn(t.pushed + left.pushed, left.buffered, left.ended, t.failed || left.failed)
  }

  lemma NothingYet(s: Text, ended: bool, read: Text -> Verdict)
    ensures SoFar(Emit(s, ended, read), Turn([], s, ended, false), read)
  {
    hide Emit;
  }

  lemma LoopTurns(all: Turn, t: Turn, read: Text -> Verdict)
    requires SoFar(all, t, read)
    ensures var s := t.buffered;
            if |s| < 4 then t == all
            else
              var length := LengthAt(s);
              && (length == 0 || length > MAX_FRAME_BYTES ==> t.(failed := true) == all)
              && (0 < length <= MAX_FRAME_BYTES ==>
                    if |s| < 4 + length then t == all
                    else
                      var body, rest := s[4..4 + length], s[4 + length..];
                      match read(body)
                      case Refused => t.(failed := true) == all
                      case Null => SoFar(all, t.(buffered := rest, ended := true), read)
                      case Value =>
                        if t.ended then SoFar(all, t.(buffered := rest, failed := true), read)
                        else SoFar(all, t.(pushed := t.pushed + [body], buffered := rest), read))
  {
    hide Emit, LengthAt;
    EmitTurn(t.buffered, t.ended, read);
    assert t.pushed + [] == t.pushed;
  }

  // ----- The desktop reads the same frames -----

  /** How many frames come before the first that is refused. */
  function Passing(frames: seq<Text>, read: Text -> Verdict): (k: nat)
    ensures k <= |frames| && (forall i | 0 <= i < k :: read(frames[i]) != Refused)
            && (k < |frames| ==> read(frames[k]) == Refused)
  {
    if frames == [] || read(frames[0]) == Refused then 0 else 1 + Passing(frames[1..], read)
  }

  /** How many frames come before the first that is not a value. */
  function Values(frames: seq<Text>, read: Text -> Verdict): (k: nat)
    ensures k <= |frames| && (forall i | 0 <= i < k :: read(frames[i]) == Value)
            && (k < |frames| ==> read(frames[k]) != Value)
  {
    if frames == [] || read(frames[0]) != Value then 0 else 1 + Values(frames[1..], read)
  }

  predicate HasNull(frames: seq<Text>, read: Text -> Verdict) {
    exists i | 0 <= i < |frames| :: read(frames[i]) == Null
  }

  predicate HasValue(frames: seq<Text>, read: Text -> Verdict) {
    exists i | 0 <= i < |frames| :: read(frames[i]) == Value
  }

  /**
   * Among the frames before the first refused one, a value comes after a null, or anywhere once the
   * stream has ended.
   */
  predicate PushesAfterEnd(frames: seq<Text>, ended: bool, read: Text -> Verdict) {
    var passing := frames[..Passing(frames, read)];
    HasValue(if ended then passing else passing[Values(passing, read)..], read)
  }

  /** What one call does to the frames of the native decoder. */
  ghost predicate Shows(t: Turn, d: Drained, ended: bool, read: Text -> Verdict) {
    && t.pushed == (if ended then [] else d.frames[..Values(d.frames, read)])
    && (t.failed <==> Passing(d.frames, read) < |d.frames| || d.failure.Some? || PushesAfterEnd(d.frames, ended, read))
    && (!t.failed ==> t.buffered == d.rest && (t.ended <==> ended || HasNull(d.frames, read)))
  }

  lemma HasValueCons(frame: Text, rest: seq<Text>, read: Text -> Verdict)
    ensures HasValue([frame] + rest, read) <==> read(frame) == Value || HasValue(rest, read)
  {
    var all := [frame] + rest;
    assert all[0] == frame && forall i {:trigger rest[i]} | 0 <= i < |rest| :: all[i + 1] == rest[i];
    if HasValue(rest, read) {
      var i :| 0 <= i < |rest| && read(rest[i]) == Value;
      assert read(all[i + 1]) == Value;
    }
  }

  lemma HasNullCons(frame: Text, rest: seq<Text>, read: Text -> Verdict)
    ensures HasNull([frame] + rest, read) <==> read(frame) == Null || HasNull(rest, read)
  {
    var all := [frame] + rest;
    assert all[0] == frame && forall i {:trigger rest[i]} | 0 <= i < |rest| :: all[i + 1] == rest[i];
    if HasNull(rest, read) {
      var i :| 0 <= i < |rest| && read(rest[i]) == Null;
      assert read(all[i + 1]) == Null;
    }
  }

  lemma ValuesCons(frame: Text, rest: seq<Text>, read: Text -> Verdict)
    ensures var frames := [frame] + rest;
            frames[..Values(frames, read)] == if read(frame) == Value then [frame] + rest[..Values(rest, read)] else []
  {
    assert ([frame] + rest)[1..] == rest;
  }

  lemma PassingCons(frame: Text, rest: seq<Text>, read: Text -> Verdict)
    requires read(frame) != Refused
    ensures var frames := [frame] + rest;
            && Passing(frames, read) == 1 + Passing(rest, read)
            && frames[..Passing(frames, read)] == [frame] + rest[..Passing(rest, read)]
  {
    assert ([frame] + rest)[1..] == rest;
  }

  /** What is pushed after the end, one frame more. */
  lemma PushesCons(frame: Text, rest: seq<Text>, ended: bool, read: Text -> Verdict)
    requires read(frame) != Refused
    ensures PushesAfterEnd([frame] + rest, ended, read) <==>
            if read(frame) == Null then PushesAfterEnd(rest, true, read) else ended || PushesAfterEnd(rest, ended, read)
  {
    PassingCons(frame, rest, read);
    var passing := rest[..Passing(rest, read)];
    HasValueCons(frame, passing, read);
    assert ([frame] + passing)[1..] == passing;
    if read(frame) == Value {
      assert ([frame] + passing)[1 + Values(passing, read)..] == passing[Values(passing, read)..];
    } else {
      assert ([frame] + passing)[0..] == [frame] + passing;
    }
  }

  /** The readings of one more frame. */
  lemma ShowsCons(t: Turn, frame: Text, d: Drained, ended: bool, read: Text -> Verdict)
    requires read(frame) != Refused && Shows(t, d, ended || read(frame) == Null, read)
    ensures Shows(if read(frame) == Null then t else Push(frame, ended, t), Prepend(frame, d), ended, read)
  {
    PassingCons(frame, d.frames, read);
    PushesCons(frame, d.frames, ended, read);
    HasNullCons(frame, d.frames, read);
    ValuesCons(frame, d.frames, read);
    hide PushesAfterEnd, Passing, Values, HasNull;
  }

  lemma NothingShown(t: Turn, ended: bool, read: Text -> Verdict, failure: Option<Failure>)
    requires t == Turn([], t.buffered, ended, failure.Some?)
    ensures Shows(t, Drained([], t.buffered, failure), ended, read)
  {
  }

  lemma RefusalShown(s: Text, frame: Text, d: Drained, ended: bool, read: Text -> Verdict)
    requires read(frame) == Refused
    ensures Shows(Turn([], s, ended, true), Prepend(frame, d), ended, read)
  {
    assert ([frame] + d.frames)[0] == frame;
  }

  /**
   * The desktop pushes the native decoder's frames up to the first that is not a value. It fails at a frame that is
   * refused, at a bad header, and at a value that comes after a null.
   */
  lemma {:induction false} EmitIsDrain(s: Text, ended: bool, read: Text -> Verdict)
    ensures Shows(Emit(s, ended, read), Drain(s, MAX_FRAME_BYTES), ended, read)
    decreases |s|
  {
    hide LengthAt, Emit, Drain, Shows;
    EmitTurn(s, ended, read);
    DrainTurn(s, 0, MAX_FRAME_BYTES);
    assert s[0..] == s;
    if |s| < 4 {
      NothingShown(Emit(s, ended, read), ended, read, None);
    } else {
      var length := LengthAt(s);
      if length < 0 {
        NegativeLength(s);
        NothingShown(Emit(s, ended, read), ended, read, None);
      } else if length == 0 || length > MAX_FRAME_BYTES {
        NothingShown(Emit(s, ended, read), ended, read, Drain(s, MAX_FRAME_BYTES).failure);
      } else if |s| < 4 + length {
        NothingShown(Emit(s, ended, read), ended, read, None);
      } else {
        var body, rest := s[4..4 + length], s[4 + length..];
        if read(body) == Refused {
          RefusalShown(s, body, Drain(rest, MAX_FRAME_BYTES), ended, read);
        } else {
          var next := ended || read(body) == Null;
          EmitIsDrain(rest, next, read);
          ShowsCons(Emit(rest, next, read), body, Drain(rest, MAX_FRAME_BYTES), ended, read);
        }
      }
    }
  }

  /** Integers below 0 are not octets; both decoders would wait for more. */
  lemma NegativeLength(s: Text)
    requires |s| >= 4 && LengthAt(s) < 0
    ensures Drain(s, MAX_FRAME_BYTES) == Drained([], s, None)
  {
  }

  // ----- Any split gives the same, errors included -----

  lemma {:induction false} EndedPushesNothing(s: Text, read: Text -> Verdict)
    ensures Emit(s, true, read).pushed == [] && Emit(s, true, read).ended
    decreases |s|
  {
    hide LengthAt, Emit;
    EmitTurn(s, true, read);
    if |s| >= 4 {
      var length := LengthAt(s);
      if 0 < length <= MAX_FRAME_BYTES && |s| >= 4 + length { EndedPushesNothing(s[4 + length..], read); }
    }
  }

  /** A longer stream: the failure stays; without one what follows is read on from what was kept. */
  ghost predicate Continues(t: Turn, longer: Turn, more: Text, read: Text -> Verdict) {
    if t.failed then longer.pushed == t.pushed && longer.failed
    else
      var next := Emit(t.buffered + more, t.ended, read);
      longer == Turn(t.pushed + next.pushed, next.buffered, next.ended, next.failed)
  }

  lemma PushContinues(frame: Text, ended: bool, t: Turn, longer: Turn, more: Text, read: Text -> Verdict)
    requires Continues(t, longer, more, read) && (ended ==> t.pushed == [] && longer.pushed == [])
    ensures Continues(Push(frame, ended, t), Push(frame, ended, longer), more, read)
  {
    hide Emit;
  }

  lemma {:induction false} EmitGrows(s: Text, more: Text, ended: bool, read: Text -> Verdict)
    ensures Continues(Emit(s, ended, read), Emit(s + more, ended, read), more, read)
    decreases |s|
  {
    hide Emit, LengthAt, Push;
    EmitTurn(s, ended, read);
    EmitTurn(s + more, ended, read);
    if |s| >= 4 {
      SameLength(s, more);
      var length := LengthAt(s);
      if 0 < length <= MAX_FRAME_BYTES && |s| >= 4 + length {
        var body, rest := s[4..4 + length], s[4 + length..];
        assert (s + more)[4..4 + length] == body && (s + more)[4 + length..] == rest + more;
        if read(body) != Refused {
          var next := ended || read(body) == Null;
          EmitGrows(rest, more, next, read);
          if ended {
            EndedPushesNothing(rest, read);
            EndedPushesNothing(rest + more, read);
          }
          PushContinues(body, ended, Emit(rest, next, read), Emit(rest + more, next, read), more, read);
        }
      }
    }
  }

  /** A failure destroys the stream: later chunks never reach the transform. */
  function EmitAll(buffered: Text, ended: bool, chunks: seq<Text>, read: Text -> Verdict): Turn
    decreases |chunks|
  {
    if chunks == [] then Turn([], buffered, ended, false)
    else
      var t := Emit(buffered + chunks[0], ended, read);
      if t.failed then t
      else
        var rest := EmitAll(t.buffered, t.ended, chunks[1..], read);
        rest.(pushed := t.pushed + rest.pushed)
  }

  lemma {:induction false} EmitAllIs(s: Text, ended: bool, chunks: seq<Text>, read: Text -> Verdict)
    requires Emit(s, ended, read) == Turn([], s, ended, false)
    ensures var t, whole := EmitAll(s, ended, chunks, read), Emit(s + Whole(chunks), ended, read);
            && t.pushed == whole.pushed && t.failed == whole.failed
            && (!t.failed ==> t.buffered == whole.buffered && t.ended == whole.ended)
    decreases |chunks|
  {
    hide Emit;
    if chunks == [] {
      assert s + [] == s;
    } else {
      var grown, rest := s + chunks[0], Whole(chunks[1..]);
      assert s + Whole(chunks) == grown + rest;
      EmitGrows(grown, rest, ended, read);
      var t := Emit(grown, ended, read);
      if !t.failed {
        EmitTwice(grown, ended, read);
        EmitAllIs(t.buffered, t.ended, chunks[1..], read);
      }
    }
  }

  lemma {:induction false} EmitTwice(s: Text, ended: bool, read: Text -> Verdict)
    requires !Emit(s, ended, read).failed
    ensures var t := Emit(s, ended, read); Emit(t.buffered, t.ended, read) == Turn([], t.buffered, t.ended, false)
    decreases |s|
  {
    hide LengthAt, Emit;
    EmitTurn(s, ended, read);
    if |s| >= 4 {
      var length := LengthAt(s);
      if 0 < length <= MAX_FRAME_BYTES && |s| >= 4 + length {
        EmitTwice(s[4 + length..], ended || read(s[4..4 + length]) == Null, read);
      } else {
        EmitTurn(s, Emit(s, ended, read).ended, read);
      }
    }
  }

  // ----- Agreement -----

  /** A value comes after a null. */
  predicate ValueAfterNull(frames: seq<Text>, read: Text -> Verdict) {
    exists i, j | 0 <= i < j < |frames| :: read(frames[i]) == Null && read(frames[j]) == Value
  }

  lemma PushesAreValuesAfterNull(frames: seq<Text>, read: Text -> Verdict)
    requires forall i | 0 <= i < |frames| :: read(frames[i]) != Refused
    ensures Passing(frames, read) == |frames| && (PushesAfterEnd(frames, false, read) <==> ValueAfterNull(frames, read))
  {
    assert frames[..|frames|] == frames;
    var n := Values(frames, read);
    var tail := frames[n..];
    assert forall i {:trigger tail[i]} | 0 <= i < |tail| :: tail[i] == frames[n + i];
    if HasValue(tail, read) {
      var i :| 0 <= i < |tail| && read(tail[i]) == Value;
      assert read(frames[n]) == Null && read(frames[n + i]) == Value;
    }
    if ValueAfterNull(frames, read) {
      var i, j :| 0 <= i < j < |frames| && read(frames[i]) == Null && read(frames[j]) == Value;
      assert n <= i && tail[j - n] == frames[j];
    }
  }

  /**
   * Both decoders on one stream, each in its own split. The desktop accepts exactly the streams the native decoder
   * accepts in which no payload is refused and no value comes after a null, and then both keep the same octets. On a
   * stream the native decoder accepts, the desktop emits the same payloads exactly when all of them are values: a null
   * is swallowed with everything after it. In any case what it emits are the frames before the first that is no value.
   */
  lemma DecodersAgree(nativeChunks: seq<Text>, desktopChunks: seq<Text>, read: Text -> Verdict)
    requires Whole(nativeChunks) == Whole(desktopChunks)
    ensures var after, frames := FedAll(EMPTY, nativeChunks, MAX_FRAME_BYTES),
            DeliveredAll(EMPTY, nativeChunks, MAX_FRAME_BYTES);
            var desktop := EmitAll([], false, desktopChunks, read);
            && (!desktop.failed <==>
                  after.failure.None? && (forall i | 0 <= i < |frames| :: read(frames[i]) != Refused)
                    && !ValueAfterNull(frames, read))
            && (!desktop.failed ==> desktop.buffered == after.buffer && (desktop.ended <==> HasNull(frames, read)))
            && (after.failure.None? ==>
                  && desktop.pushed == frames[..Values(frames, read)]
                  && (desktop.pushed == frames <==> forall i | 0 <= i < |frames| :: read(frames[i]) == Value))
            && (after.failure.Some? ==>
                  var all := Drain(Whole(nativeChunks), MAX_FRAME_BYTES).frames;
                  desktop.pushed == all[..Values(all, read)])
  {
    hide Drain, Emit, Passing, Values, PushesAfterEnd, ValueAfterNull;
    var s := Whole(nativeChunks);
    assert [] + s == s;
    DrainNothing(MAX_FRAME_BYTES);
    FedAllIs([], nativeChunks, MAX_FRAME_BYTES);
    EmitNothing(read);
    EmitAllIs([], false, desktopChunks, read);
    EmitIsDrain(s, false, read);
    var all := Drain(s, MAX_FRAME_BYTES).frames;
    if forall i | 0 <= i < |all| :: read(all[i]) != Refused { PushesAreValuesAfterNull(all, read); }
    assert all[..|all|] == all;
  }

  lemma EmitNothing(read: Text -> Verdict)
    ensures Emit([], false, read) == Turn([], [], false, false)
  {
  }

  /** Payloads of a stream that the desktop takes to its end. */
  predicate AreTaken(payloads: seq<Text>, read: Text -> Verdict) {
    && InLimit(payloads, MAX_FRAME_BYTES) && [] !in payloads
    && (forall i | 0 <= i < |payloads| :: read(payloads[i]) != Refused) && !ValueAfterNull(payloads, read)
  }

  /**
   * A stream ends without an error exactly when it is whole frames, none of them empty or too long, of which none is
   * refused and no value comes after a null.
   */
  lemma EndsCleanly(chunks: seq<Text>, read: Text -> Verdict)
    requires IsOctets(Whole(chunks))
    ensures var t := EmitAll([], false, chunks, read);
            !t.failed && t.buffered == [] <==> exists payloads ::
              Whole(chunks) == Stream(payloads) && AreTaken(payloads, read)
  {
    hide Drain, Emit, EmitAll, FedAll, DeliveredAll, ValueAfterNull;
    var s := Whole(chunks);
    var t := EmitAll([], false, chunks, read);
    DrainNothing(MAX_FRAME_BYTES);
    DecodersAgree(chunks, chunks, read);
    FedAllIs([], chunks, MAX_FRAME_BYTES);
    assert [] + s == s;
    var d := Drain(s, MAX_FRAME_BYTES);
    DrainedComesBack(s, MAX_FRAME_BYTES);
    if !t.failed && t.buffered == [] {
      assert s == Stream(d.frames) + [] == Stream(d.frames);
      assert AreTaken(d.frames, read);
    }
    forall payloads | s == Stream(payloads) && AreTaken(payloads, read) ensures !t.failed && t.buffered == [] {
      DrainStream(payloads, [], MAX_FRAME_BYTES);
      assert s + [] == s;
      assert d.frames == payloads + [] == payloads;
    }
  }

  // ----- Null -----

  const NULL_TEXT: Text := [0x6E, 0x75, 0x6C, 0x6C]
  const BRACES: Text := [0x7B, 0x7D]

  /**
   * The input where the decoders part: on a frame that holds null the native decoder delivers one payload and the
   * desktop none, without an error; with a frame after it the native decoder delivers both and the desktop fails.
   */
  lemma NullEndsTheStream(read: Text -> Verdict)
    requires read(NULL_TEXT) == Null && read(BRACES) == Value
    ensures var alone, both := Stream([NULL_TEXT]), Stream([NULL_TEXT, BRACES]);
            && Drain(alone, MAX_FRAME_BYTES) == Drained([NULL_TEXT], [], None)
            && Emit(alone, false, read) == Turn([], [], true, false)
            && Drain(both, MAX_FRAME_BYTES) == Drained([NULL_TEXT, BRACES], [], None)
            && Emit(both, false, read).failed && Emit(both, false, read).pushed == []
  {
    hide Drain, Emit, Stream;
    ShownFrames([NULL_TEXT], read);
    ShownFrames([NULL_TEXT, BRACES], read);
    var alone, both := [NULL_TEXT], [NULL_TEXT, BRACES];
    assert read(alone[0]) == Null && read(both[0]) == Null && read(both[1]) == Value;
    assert Values(alone, read) == 0 && Values(both, read) == 0;
    PushesAreValuesAfterNull(alone, read);
    PushesAreValuesAfterNull(both, read);
  }

  lemma ShownFrames(payloads: seq<Text>, read: Text -> Verdict)
    requires InLimit(payloads, MAX_FRAME_BYTES) && [] !in payloads
    ensures Drain(Stream(payloads), MAX_FRAME_BYTES) == Drained(payloads, [], None)
    ensures Shows(Emit(Stream(payloads), false, read), Drained(payloads, [], None), false, read)
  {
    hide Drain, Emit, Shows;
    DrainStream(payloads, [], MAX_FRAME_BYTES);
    DrainNothing(MAX_FRAME_BYTES);
    assert Stream(payloads) + [] == Stream(payloads) && payloads + [] == payloads;
    EmitIsDrain(Stream(payloads), false, read);
  }
}
