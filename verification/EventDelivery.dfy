/**
 * From the producers to the client: what the desktop's frame decoder, parser and scan make of the pipe's octets, and
 * the sequence check of apps/desktop/src/main/native-host/native-host-client.ts.
 */
module EventDelivery {
  import opened Basics
  import opened Utf8
  import opened FrameCodec
  import opened DesktopFrames
  import opened JsonStrings
  import opened Envelope
  import opened EnvelopeRoundTrip
  import opened DesktopAcceptance
  import opened EnvelopeOnDesktop
  import opened EventTransport
  import HostClient

  /** Integers up to here are exact in the client. */
  const SAFE_INTEGERS: nat := 0x20_0000_0000_0000

  predicate AllAbove(ns: seq<nat>, bound: int) {
    forall n | n in ns :: n > bound
  }

  /** Increasing numbers above the last one pass the client's check. */
  lemma {:induction false} IncreasingIsAccepted(last: int, ns: seq<nat>)
    requires Increasing(ns) && AllAbove(ns, last)
    ensures HostClient.Grow(last, ns)
    decreases |ns|
  {
    if ns != [] {
      var rest := ns[1..];
      assert ns[0] in ns;
      assert forall k {:trigger rest[k]} | 0 <= k < |rest| :: rest[k] == ns[k + 1] > ns[0];
      IncreasingIsAccepted(ns[0], rest);
    }
  }

  // ----- A prefix of a stream of frames -----

  /** Fewer octets than a frame holds are kept for later. */
  lemma ShortIsKept(payload: Text, x: Text)
    requires 0 < |payload| <= MAX_FRAME_BYTES && x <= Frame(payload) && |x| < |Frame(payload)|
    ensures Drain(x, MAX_FRAME_BYTES) == Drained([], x, None)
  {
    HeaderReadsBack(|payload|, payload);
    if |x| >= 4 {
      assert Frame(payload) == x + Frame(payload)[|x|..];
      SameLength(x, Frame(payload)[|x|..]);
    }
    hide LengthAt;
  }

  /** Any prefix of a stream of frames is some of the frames and an incomplete one. */
  lemma {:induction false} PrefixSplits(payloads: seq<Text>, x: Text) returns (k: nat, tail: Text)
    requires x <= Stream(payloads) && InLimit(payloads, MAX_FRAME_BYTES) && [] !in payloads
    ensures k <= |payloads| && x == Stream(payloads[..k]) + tail
            && Drain(tail, MAX_FRAME_BYTES) == Drained([], tail, None)
    decreases |payloads|
  {
    hide Frame, Drain, Stream;
    NoPayloads(payloads, x);
    if payloads == [] {
      k, tail := 0, [];
      DrainNothing(MAX_FRAME_BYTES);
    } else {
      FirstPayload(payloads, x);
      if |x| < |Frame(payloads[0])| {
        k, tail := 0, x;
        ShortIsKept(payloads[0], x);
      } else {
        k, tail := PrefixSplits(payloads[1..], x[|Frame(payloads[0])|..]);
        OneMorePayload(payloads, x, k, tail);
        k := k + 1;
      }
    }
  }

  lemma NoPayloads(payloads: seq<Text>, x: Text)
    ensures x == Stream(payloads[..0]) + x && (payloads == [] ==> Stream(payloads) == [])
  {
    assert payloads[..0] == [];
  }

  lemma FirstPayload(payloads: seq<Text>, x: Text)
    requires payloads != [] && x <= Stream(payloads)
    ensures var frame := Frame(payloads[0]);
            if |x| < |frame| then x <= frame else x == frame + x[|frame|..] && x[|frame|..] <= Stream(payloads[1..])
  {
    hide Frame;
    var frame, rest := Frame(payloads[0]), Stream(payloads[1..]);
    assert Stream(payloads) == frame + rest;
    hide Stream;
    if |x| < |frame| {
      assert x == (frame + rest)[..|x|] == frame[..|x|];
    } else {
      assert x == (frame + rest)[..|x|];
      assert x[|frame|..] == rest[..|x| - |frame|];
    }
  }

  lemma OneMorePayload(payloads: seq<Text>, x: Text, k: nat, tail: Text)
    requires payloads != [] && k <= |payloads| - 1
    requires var n := |Frame(payloads[0])|;
             n <= |x| && x == Frame(payloads[0]) + x[n..] && x[n..] == Stream(payloads[1..][..k]) + tail
    ensures x == Stream(payloads[..k + 1]) + tail
  {
    hide Frame;
    assert payloads[..k + 1][1..] == payloads[1..][..k];
    assert Stream(payloads[..k + 1]) == Frame(payloads[0]) + Stream(payloads[1..][..k]);
  }

  // ----- End to end -----

  ghost predicate AllWellFormed(es: seq<Envelope>) {
    forall e | e in es :: WellFormed(e)
  }

  /** A well-formed message is a frame that the desktop takes exactly when its payload is deliverable. */
  ghost predicate IsCarried(e: Envelope, body: Text) {
    && 0 < |body| <= MAX_FRAME_BYTES && Classify(body) == (if IsDeliverable(e) then Value else Refused)
    && (IsDeliverable(e) ==> ArrivesAs(body, e))
  }

  lemma EncodingIsCarried(e: Envelope)
    requires WellFormed(e) && IsSendable(e)
    ensures IsCarried(e, Encoding(e))
  {
    hide Encode, WellFormed, AreOctets, Classify, ArrivesAs, IsDeliverable;
    DeliverableArrives(e);
    EncodeIsNotEmpty(e);
  }

  lemma EncodeIsNotEmpty(e: Envelope)
    requires AreOctets(e)
    ensures Encode(e) != []
  {
    hide Joined, WrittenFields;
  }

  lemma EncodingsAreCarried(es: seq<Envelope>)
    requires AllWellFormed(es) && AreSendable(es)
    ensures InLimit(Encodings(es), MAX_FRAME_BYTES) && [] !in Encodings(es)
    ensures forall k | 0 <= k < |es| :: IsCarried(es[k], Encodings(es)[k])
  {
    hide WellFormed, Encoding, IsSendable, Classify, ArrivesAs, IsDeliverable;
    forall k | 0 <= k < |es| ensures IsCarried(es[k], Encoding(es[k])) {
      assert es[k] in es;
      EncodingIsCarried(es[k]);
    }
  }

  /** The octets of a connection begin the stream of its messages. */
  lemma WireBeginsStream(s: State)
    requires WireIsFrames(s)
    ensures s.wire <= Stream(Encodings(Messages(s))) && Stream(Encodings(s.log)) <= s.wire
  {
    hide FrameOf, Encodings, Stream;
    if Last(s).Some? {
      OneMore(s.log, Last(s).value.message);
    } else {
      assert s.log + [] == s.log;
    }
  }

  /** Among frames that are not null, the desktop fails exactly at a refused one; without any it emits them all. */
  lemma EmitsAll(chunks: seq<Text>, frames: seq<Text>, rest: Text, read: Text -> Verdict)
    requires Drain(Whole(chunks), MAX_FRAME_BYTES) == Drained(frames, rest, None) && !HasNull(frames, read)
    ensures var t := EmitAll([], false, chunks, read);
            && (!t.failed <==> forall i | 0 <= i < |frames| :: read(frames[i]) == Value)
            && (!t.failed ==> t.pushed == frames && !t.ended)
  {
    hide Drain, EmitAll, FedAll, DeliveredAll, Passing, Values;
    DecodersAgree(chunks, chunks, read);
    ChunkingDoesNotMatter(chunks, MAX_FRAME_BYTES);
    assert [] + Whole(chunks) == Whole(chunks);
    assert forall i | 0 <= i < |frames| :: read(frames[i]) != Null;
  }

  lemma {:induction false} NumbersOfPrefix(es: seq<Envelope>, k: nat)
    requires k <= |es|
    ensures Numbers(es[..k]) <= Numbers(es)
    decreases |es|
  {
    if k < |es| {
      NumbersOfPrefix(es[..|es| - 1], k);
      assert es[..|es| - 1][..k] == es[..k];
    } else {
      assert es[..k] == es;
    }
  }

  /** A client right after it connected. */
  predicate IsFresh(c: HostClient.State) {
    c.socket.Some? && c.lastEventSeq == -1 && c.emitted == []
  }

  /** A client run on one fresh connection, undisturbed, whose events carry these numbers. */
  predicate Receives(c: HostClient.State, inputs: seq<HostClient.Input>, numbers: seq<nat>) {
    IsFresh(c) && HostClient.Undisturbed(c, inputs) && HostClient.EventNumbers(inputs) == numbers
  }

  /**
   * Whatever the producers and the pipe did, and however the octets arrive: the frames that have arrived are the first
   * messages of the connection in lock order, and once all octets have, no message sent whole is missing. The desktop's
   * decoder fails exactly when a payload among them is not deliverable; otherwise it emits them all and reads each as
   * it was sent. The numbers of the events among them are exact and grow, so that a client which nothing else disturbs
   * stays connected and hands every one of them on.
   */
  lemma EventsReachTheClient(actions: seq<Action>, chunks: seq<Text>) returns (k: nat)
    requires var s := Run(INITIAL, actions);
             Whole(chunks) <= s.wire && AllWellFormed(Messages(s)) && s.issued <= SAFE_INTEGERS
    ensures var s := Run(INITIAL, actions);
            && k <= |Messages(s)| && Drain(Whole(chunks), MAX_FRAME_BYTES).frames == Encodings(Messages(s)[..k])
            && (Whole(chunks) == s.wire ==> k >= |s.log|)
    ensures var arrived, t := Messages(Run(INITIAL, actions))[..k], EmitAll([], false, chunks, Classify);
            && (!t.failed <==> forall i | 0 <= i < k :: IsDeliverable(arrived[i]))
            && (!t.failed ==> !t.ended && t.pushed == Encodings(arrived) && forall i | 0 <= i < k ::
               ArrivesAs(t.pushed[i], arrived[i]))
    ensures var numbers := Numbers(Messages(Run(INITIAL, actions))[..k]);
            && AllBelow(numbers, SAFE_INTEGERS)
            && forall c, inputs | Receives(c, inputs, numbers) ::
                 HostClient.Run(c, inputs).socket.Some? && HostClient.Run(c, inputs).emitted == numbers
  {
    hide *;
    var s := Run(INITIAL, actions);
    var es := Messages(s);
    WireIsOrdered(actions);
    NumbersInRange(s);
    WireBeginsStream(s);
    EncodingsAreCarried(es);
    var tail;
    k, tail := PrefixSplits(Encodings(es), Whole(chunks));
    var arrived := es[..k];
    FirstEncodings(es, k);
    DrainStream(Encodings(arrived), tail, MAX_FRAME_BYTES);
    CarriedAreEmitted(chunks, arrived, tail);
    NumbersOfPrefix(es, k);
    PrefixAccepted(es, k, s.issued);
    forall c, inputs | Receives(c, inputs, Numbers(arrived))
      ensures HostClient.Run(c, inputs).socket.Some? && HostClient.Run(c, inputs).emitted == Numbers(arrived)
    {
      ClientHandsOn(c, inputs, Numbers(arrived));
    }
    if Whole(chunks) == s.wire { AllArrived(s, k, tail); }
  }

  lemma ClientHandsOn(c: HostClient.State, inputs: seq<HostClient.Input>, numbers: seq<nat>)
    requires Receives(c, inputs, numbers) && HostClient.Grow(-1, numbers)
    ensures HostClient.Run(c, inputs).socket.Some? && HostClient.Run(c, inputs).emitted == numbers
  {
    hide HostClient.Run, HostClient.Undisturbed, HostClient.Grow, HostClient.EventNumbers;
    HostClient.EventsAreAccepted(c, inputs);
    assert [] + numbers == numbers;
  }

  lemma CarriedAreEmitted(chunks: seq<Text>, arrived: seq<Envelope>, tail: Text)
    requires Drain(Whole(chunks), MAX_FRAME_BYTES) == Drained(Encodings(arrived), tail, None)
    requires forall i | 0 <= i < |arrived| :: IsCarried(arrived[i], Encodings(arrived)[i])
    ensures var t := EmitAll([], false, chunks, Classify);
            && (!t.failed <==> forall i | 0 <= i < |arrived| :: IsDeliverable(arrived[i]))
            && (!t.failed ==> !t.ended && t.pushed == Encodings(arrived)
                              && forall i | 0 <= i < |arrived| :: ArrivesAs(t.pushed[i], arrived[i]))
  {
    hide Drain, EmitAll, Classify, IsDeliverable, ArrivesAs, Encoding, Encodings;
    EmitsAll(chunks, Encodings(arrived), tail, Classify);
  }

  lemma NumbersInRange(s: State)
    requires s.issued <= SAFE_INTEGERS
    ensures s.issued < UINT64_RANGE
  {
  }

  lemma FirstEncodings(es: seq<Envelope>, k: nat)
    requires k <= |es| && InLimit(Encodings(es), MAX_FRAME_BYTES) && [] !in Encodings(es)
    requires forall i | 0 <= i < |es| :: IsCarried(es[i], Encodings(es)[i])
    ensures Encodings(es)[..k] == Encodings(es[..k])
    ensures InLimit(Encodings(es[..k]), MAX_FRAME_BYTES) && [] !in Encodings(es[..k])
    ensures forall i | 0 <= i < k :: IsCarried(es[..k][i], Encodings(es[..k])[i])
    ensures MAX_FRAME_BYTES < 0x1_0000_0000
    ensures Encodings(es[..k]) + [] == Encodings(es[..k])
  {
    hide IsCarried, Encoding;
    assert Encodings(es)[..k] == Encodings(es[..k]);
  }

  lemma PrefixAccepted(es: seq<Envelope>, k: nat, issued: nat)
    requires k <= |es| && Numbers(es[..k]) <= Numbers(es) && issued <= SAFE_INTEGERS
    requires Increasing(Numbers(es)) && AllBelow(Numbers(es), issued)
    ensures HostClient.Grow(-1, Numbers(es[..k])) && AllBelow(Numbers(es[..k]), SAFE_INTEGERS)
  {
    hide Numbers, Increasing, AllBelow, AllAbove;
    FewerIncrease(Numbers(es[..k]), Numbers(es), issued);
    IncreasingIsAccepted(-1, Numbers(es[..k]));
  }

  lemma FewerIncrease(few: seq<nat>, all: seq<nat>, bound: nat)
    requires few <= all && Increasing(all) && AllBelow(all, bound) && bound <= SAFE_INTEGERS
    ensures Increasing(few) && AllAbove(few, -1) && AllBelow(few, SAFE_INTEGERS)
  {
    assert forall i | 0 <= i < |few| :: few[i] == all[i] && few[i] in all;
  }

  /** All the frames sent whole are among the frames drained. */
  lemma AllArrived(s: State, k: nat, tail: Text)
    requires k <= |Messages(s)| && s.wire == Stream(Encodings(Messages(s))[..k]) + tail
             && Stream(Encodings(s.log)) <= s.wire
    requires Drain(tail, MAX_FRAME_BYTES) == Drained([], tail, None)
    requires InLimit(Encodings(Messages(s)), MAX_FRAME_BYTES) && [] !in Encodings(Messages(s))
    ensures k >= |s.log|
  {
    hide Drain, Frame, Encoding, Stream;
    assert Encodings(s.log) <= Encodings(Messages(s));
    NoneMissing(Encodings(s.log), Encodings(Messages(s)), s.wire, k, tail);
  }

  lemma NoneMissing(whole: seq<Text>, all: seq<Text>, wire: Text, k: nat, tail: Text)
    requires whole <= all && k <= |all| && wire == Stream(all[..k]) + tail && Stream(whole) <= wire
    requires Drain(tail, MAX_FRAME_BYTES) == Drained([], tail, None) && InLimit(all, MAX_FRAME_BYTES) && [] !in all
    ensures k >= |whole|
  {
    hide Drain, Frame, Stream;
    if k < |whole| {
      var first, rest := whole[..k], whole[k..];
      assert all[..k] == first && whole == first + rest;
      StreamConcat(first, rest);
      Remains(Stream(first), Stream(rest), tail);
      assert rest[0] == all[k];
      OneFrameDrains(rest, tail);
    }
  }

  lemma Remains(a: Text, b: Text, tail: Text)
    requires a + b <= a + tail
    ensures b <= tail
  {
    assert (a + b)[|a|..] == b && (a + tail)[|a|..] == tail;
    assert a + b == (a + tail)[..|a + b|];
    assert b == tail[..|b|];
  }

  lemma OneFrameDrains(payloads: seq<Text>, tail: Text)
    requires payloads != [] && 0 < |payloads[0]| <= MAX_FRAME_BYTES && Stream(payloads) <= tail
    ensures Drain(tail, MAX_FRAME_BYTES).frames != []
  {
    hide Frame, Drain;
    var frame := Frame(payloads[0]);
    assert tail == frame + tail[|frame|..];
    DrainFrame(payloads[0], tail[|frame|..], MAX_FRAME_BYTES);
  }
}
