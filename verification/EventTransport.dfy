/**
 * Numbered events on one pipe: native/selection-host/include/desktop_translate/native/ipc/sequenced_event_writer.h and
 * Send of native/selection-host/src/ipc/named_pipe_server.cpp. Any number of threads send; a thread outside both locks
 * has no state the others can see, so a state keeps the two locked sections only.
 */
module EventTransport {
  import opened Basics
  import opened FrameCodec
  import opened Envelope

  const UINT64_RANGE: nat := 0x1_0000_0000_0000_0000

  /** The critical section that numbers an event and sends it. */
  datatype Section =
    | Free
    | Numbered(event: Envelope)
    | Ready(event: Envelope)
    | Sending(event: Envelope)
    | Finished(ok: bool)

  /**
   * The thread inside the write lock: its message, how much of the frame was transferred, and whether
   * it numbers events.
   */
  datatype Writer = Writer(message: Envelope, offset: nat, numbered: bool)

  /**
   * wire holds every octet transferred on the current connection; log holds the messages sent whole on it, in lock
   * order; attempt is the write that failed and how far it got. issued counts the numbers ever given.
   */
  datatype State = State(
    nextSequence: nat, issued: nat, section: Section, writer: Option<Writer>, connected: bool,
    wire: Text, log: seq<Envelope>, attempt: Option<Writer>)

  datatype Action =
    | TakeNumber(name: Text, timestamp: Text, payload: Text)
    | Prepare
    | BeginEvent
    | BeginOther(message: Envelope)
    | Transfer(count: nat)
    | Fail(count: nat)
    | Leave
    | Disconnect
    | Connect

  const INITIAL := State(0, 0, Free, None, false, [], [], None)

  predicate IsSendable(e: Envelope) {
    AreOctets(e) && |Encoding(e)| <= MAX_FRAME_BYTES
  }

  function Encoding(e: Envelope): Text {
    if AreOctets(e) then Encode(e) else []
  }

  function FrameOf(e: Envelope): (r: Text)
    ensures |r| == 4 + |Encoding(e)|
  {
    Frame(Encoding(e))
  }

  predicate IsWriting(s: State) {
    s.writer.Some? && s.writer.value.offset < |FrameOf(s.writer.value.message)|
  }

  function EventOf(sequence: nat, name: Text, timestamp: Text, payload: Text): Envelope {
    Envelope(1, Event, None, Some(sequence), name, timestamp, payload)
  }

  function LeaveWrite(s: State, ok: bool): State
    requires s.writer.Some?
  {
    s.(writer := None, section := if s.writer.value.numbered then Finished(ok) else s.section)
  }

  /** A write transfers some of what remains of the frame, never nothing. */
  function Transferred(s: State, count: nat): State
    requires IsWriting(s) && 0 < count <= |FrameOf(s.writer.value.message)| - s.writer.value.offset
  {
    var w := s.writer.value;
    var frame := FrameOf(w.message);
    var more := s.(wire := s.wire + frame[w.offset..w.offset + count]);
    if w.offset + count == |frame| then LeaveWrite(more, true).(log := s.log + [w.message])
    else more.(writer := Some(w.(offset := w.offset + count)))
  }

  /** A failed or cancelled write may have transferred any part of what remained; the connection is retired. */
  function Failed(s: State, count: nat): State
    requires IsWriting(s) && count <= |FrameOf(s.writer.value.message)| - s.writer.value.offset
  {
    var w := s.writer.value;
    var frame := FrameOf(w.message);
    LeaveWrite(s, false).(wire := s.wire + frame[w.offset..w.offset + count], connected := false,
                          attempt := Some(w.(offset := w.offset + count)))
  }

  /** One step of one thread; a step that is not possible now changes nothing. */
  function Step(s: State, a: Action): State {
    match a
    case TakeNumber(name, timestamp, payload) =>
      if !s.section.Free? then s
      else s.(section := Numbered(EventOf(s.nextSequence, name, timestamp, payload)),
              nextSequence := (s.nextSequence + 1) % UINT64_RANGE, issued := s.issued + 1)
    case Prepare =>
      if !s.section.Numbered? then s
      else s.(section := if IsSendable(s.section.event) then Ready(s.section.event) else Finished(false))
    case BeginEvent =>
      if !s.section.Ready? || s.writer.Some? then s
      else if !s.connected then s.(section := Finished(false))
      else s.(section := Sending(s.section.event), writer := Some(Writer(s.section.event, 0, true)))
    case BeginOther(message) =>
      if s.writer.Some? || !s.connected || !IsSendable(message) || message.kind == Event then s
      else s.(writer := Some(Writer(message, 0, false)))
    case Transfer(count) =>
      if IsWriting(s) && 0 < count <= |FrameOf(s.writer.value.message)| - s.writer.value.offset then
        Transferred(s, count)
      else s
    case Fail(count) =>
      if IsWriting(s) && count <= |FrameOf(s.writer.value.message)| - s.writer.value.offset then Failed(s, count) else s
    case Leave => if s.section.Finished? then s.(section := Free) else s
    case Disconnect => if s.writer.None? then s.(connected := false) else s
    case Connect => if s.connected then s else s.(connected := true, wire := [], log := [], attempt := None)
  }

  function Run(s: State, actions: seq<Action>): State
    decreases |actions|
  {
    if actions == [] then s else Run(Step(s, actions[0]), actions[1..])
  }

  // ----- What every step keeps -----

  /** The write that is under way or that failed. */
  function Last(s: State): Option<Writer> {
    if s.writer.Some? then s.writer else s.attempt
  }

  /** The messages whose octets are on the wire, the last of them possibly in part. */
  function Messages(s: State): seq<Envelope> {
    s.log + if Last(s).Some? then [Last(s).value.message] else []
  }

  function Encodings(es: seq<Envelope>): (r: seq<Text>)
    ensures |r| == |es| && forall k | 0 <= k < |es| :: r[k] == Encoding(es[k])
  {
    seq(|es|, k requires 0 <= k < |es| => Encoding(es[k]))
  }

  /** The numbers of the events among some messages, in order. */
  function Numbers(es: seq<Envelope>): seq<nat> {
    if es == [] then []
    else
      var e := es[|es| - 1];
      Numbers(es[..|es| - 1]) + if e.kind == Event && e.sequence.Some? then [e.sequence.value] else []
  }

  predicate Increasing(ns: seq<nat>) {
    forall i, j | 0 <= i < j < |ns| :: ns[i] < ns[j]
  }

  predicate AllBelow(ns: seq<nat>, bound: nat) {
    forall n | n in ns :: n < bound
  }

  predicate AreSendable(es: seq<Envelope>) {
    forall e | e in es :: IsSendable(e)
  }

  /** The number the event section holds, not yet on the wire. */
  function Held(s: State): Option<nat> {
    if s.section.Numbered? || s.section.Ready? then s.section.event.sequence else None
  }

  predicate IsEvent(e: Envelope) {
    e.kind == Event && e.sequence.Some?
  }

  predicate Locks(s: State) {
    && (s.section.Numbered? || s.section.Ready? || s.section.Sending? ==> IsEvent(s.section.event))
    && (s.section.Ready? ==> IsSendable(s.section.event))
    && (s.writer.Some? ==> s.connected && IsWriting(s) && s.attempt.None?)
    && (s.writer.Some? && s.writer.value.numbered <==> s.section.Sending?)
    && (s.section.Sending? ==> s.writer.value.message == s.section.event)
    && (s.writer.Some? && !s.writer.value.numbered ==> s.writer.value.message.kind != Event)
    && (s.connected ==> s.attempt.None?)
  }

  /** Whole frames in lock order, then at most one frame, possibly incomplete. */
  predicate WireIsFrames(s: State) {
    var sent := Stream(Encodings(s.log));
    if Last(s).None? then s.wire == sent
    else HoldsPart(s.wire, sent, FrameOf(Last(s).value.message), Last(s).value.offset)
  }

  predicate HoldsPart(wire: Text, sent: Text, frame: Text, offset: nat) {
    offset <= |frame| && wire == sent + frame[..offset]
  }

  /** Numbers grow, and every number still to come is larger. */
  predicate NumbersGrow(s: State) {
    && s.nextSequence == s.issued
    && Increasing(Numbers(Messages(s))) && AllBelow(Numbers(Messages(s)), s.issued)
    && (Held(s).Some? ==> Held(s).value < s.issued && AllBelow(Numbers(Messages(s)), Held(s).value))
  }

  predicate Invariant(s: State) {
    Locks(s) && AreSendable(Messages(s)) && WireIsFrames(s) && (s.issued < UINT64_RANGE ==> NumbersGrow(s))
  }

  // ----- Frames -----

  lemma {:induction false} StreamConcat(a: seq<Text>, b: seq<Text>)
    ensures Stream(a + b) == Stream(a) + Stream(b)
  {
    hide Frame;
    if a == [] {
      assert a + b == b;
    } else {
      assert (a + b)[1..] == a[1..] + b;
      StreamConcat(a[1..], b);
    }
  }

  lemma OneMore(es: seq<Envelope>, e: Envelope)
    ensures Stream(Encodings(es + [e])) == Stream(Encodings(es)) + FrameOf(e)
  {
    hide Frame, Encoding;
    assert Encodings(es + [e]) == Encodings(es) + [Encoding(e)];
    StreamConcat(Encodings(es), [Encoding(e)]);
    assert Stream([Encoding(e)]) == Frame(Encoding(e)) + Stream([]);
  }

  /** A frame written up to offset, and count more octets of it. */
  lemma Extends(wire: Text, sent: Text, frame: Text, offset: nat, count: nat)
    requires HoldsPart(wire, sent, frame, offset) && offset + count <= |frame|
    ensures var more := wire + frame[offset..offset + count];
            HoldsPart(more, sent, frame, offset + count) && (offset + count == |frame| ==> more == sent + frame)
  {
    assert frame[..offset] + frame[offset..offset + count] == frame[..offset + count];
    if offset + count == |frame| { assert frame[..|frame|] == frame; }
  }

  lemma TransferWires(s: State, count: nat)
    requires WireIsFrames(s) && IsWriting(s) && s.attempt.None?
    requires 0 < count <= |FrameOf(s.writer.value.message)| - s.writer.value.offset
    ensures WireIsFrames(Transferred(s, count))
  {
    hide FrameOf, Encoding, Encodings, Stream, HoldsPart;
    var w := s.writer.value;
    OneMore(s.log, w.message);
    Extends(s.wire, Stream(Encodings(s.log)), FrameOf(w.message), w.offset, count);
  }

  lemma FailWires(s: State, count: nat)
    requires WireIsFrames(s) && IsWriting(s) && count <= |FrameOf(s.writer.value.message)| - s.writer.value.offset
    ensures WireIsFrames(Failed(s, count))
  {
    hide FrameOf, Encoding, Encodings, Stream, HoldsPart;
    var w := s.writer.value;
    Extends(s.wire, Stream(Encodings(s.log)), FrameOf(w.message), w.offset, count);
  }

  lemma BeginWires(s: State, message: Envelope, numbered: bool)
    requires WireIsFrames(s) && Last(s).None?
    ensures WireIsFrames(s.(writer := Some(Writer(message, 0, numbered))))
  {
    hide FrameOf, Encoding, Encodings, Stream;
    assert FrameOf(message)[..0] == [];
  }

  // ----- Numbers -----

  lemma NumbersOfOne(es: seq<Envelope>, e: Envelope)
    ensures Numbers(es + [e]) == Numbers(es) + if IsEvent(e) then [e.sequence.value] else []
  {
    assert (es + [e])[..|es|] == es;
  }

  lemma IncreasingMore(ns: seq<nat>, n: nat)
    requires Increasing(ns) && AllBelow(ns, n)
    ensures Increasing(ns + [n]) && AllBelow(ns + [n], n + 1)
  {
    assert forall i | 0 <= i < |ns| :: ns[i] in ns;
  }

  lemma BelowMore(ns: seq<nat>, small: nat, large: nat)
    requires AllBelow(ns, small) && small <= large
    ensures AllBelow(ns, large)
  {
  }

  lemma NumberTaken(s: State, name: Text, timestamp: Text, payload: Text)
    requires NumbersGrow(s) && Locks(s) && s.section.Free? && s.issued + 1 < UINT64_RANGE
    ensures NumbersGrow(Step(s, TakeNumber(name, timestamp, payload)))
  {
    hide Numbers, Increasing, AllBelow;
    BelowMore(Numbers(Messages(s)), s.issued, s.issued + 1);
  }

  lemma EventBegun(s: State)
    requires NumbersGrow(s) && Locks(s) && s.section.Ready? && s.writer.None? && s.connected
    ensures NumbersGrow(Step(s, BeginEvent))
  {
    hide Numbers, Increasing, AllBelow;
    var n := s.section.event.sequence.value;
    assert s.log + [] == s.log;
    NumbersOfOne(s.log, s.section.event);
    IncreasingMore(Numbers(s.log), n);
    BelowMore(Numbers(s.log) + [n], n + 1, s.issued);
  }

  lemma OtherBegun(s: State, message: Envelope)
    requires NumbersGrow(s) && Locks(s) && s.writer.None? && s.connected && message.kind != Event
    ensures NumbersGrow(Step(s, BeginOther(message)))
  {
    hide Numbers, Increasing, AllBelow;
    assert s.log + [] == s.log;
    NumbersOfOne(s.log, message);
    assert Numbers(s.log) + [] == Numbers(s.log);
  }

  lemma NothingNumbered(s: State)
    ensures Numbers([]) == [] && Increasing([]) && AllBelow([], s.issued)
            && (Held(s).Some? ==> AllBelow([], Held(s).value))
  {
  }

  lemma NumbersKept(s: State, t: State)
    requires NumbersGrow(s) && Messages(t) == Messages(s) && t.issued == s.issued && t.nextSequence == s.nextSequence
    requires Held(t) == Held(s) || Held(t).None?
    ensures NumbersGrow(t)
  {
    hide Numbers, Increasing, AllBelow, Messages, Held;
  }

  lemma SameMessages(s: State, a: Action)
    requires Locks(s) && (a.Transfer? || a.Fail? || a.Prepare? || a.Leave? || a.Disconnect?)
    ensures var t := Step(s, a);
            && Messages(t) == Messages(s) && t.issued == s.issued && t.nextSequence == s.nextSequence
            && (Held(t) == Held(s) || Held(t).None?)
  {
    hide FrameOf, Encoding, IsSendable;
    match a {
      case Transfer(count) =>
        if IsWriting(s) && 0 < count <= |FrameOf(s.writer.value.message)| - s.writer.value.offset {
          TransferMessages(s, count);
        }
      case _ =>
    }
  }

  lemma TransferMessages(s: State, count: nat)
    requires Locks(s) && IsWriting(s) && 0 < count <= |FrameOf(s.writer.value.message)| - s.writer.value.offset
    ensures Messages(Transferred(s, count)) == Messages(s)
  {
    hide FrameOf, Encoding, IsSendable;
    assert s.log + [s.writer.value.message] + [] == s.log + [s.writer.value.message];
  }

  lemma StepNumbers(s: State, a: Action)
    requires Locks(s) && NumbersGrow(s) && Step(s, a).issued < UINT64_RANGE
    ensures NumbersGrow(Step(s, a))
  {
    match a {
      case TakeNumber(name, timestamp, payload) => if s.section.Free? { NumberTaken(s, name, timestamp, payload); }
      case BeginEvent =>
        hide NumbersGrow, IsSendable;
        if s.section.Ready? && s.writer.None? && s.connected {
          EventBegun(s);
        } else {
          NumbersKept(s, Step(s, a));
        }
      case BeginOther(message) =>
        if s.writer.None? && s.connected && IsSendable(message) && message.kind != Event { OtherBegun(s, message); }
      case Connect =>
        hide Numbers, Increasing, AllBelow;
        NothingNumbered(s);
      case _ =>
        hide NumbersGrow, Step, Locks;
        SameMessages(s, a);
        NumbersKept(s, Step(s, a));
    }
  }

  lemma StepWires(s: State, a: Action)
    requires Locks(s) && WireIsFrames(s)
    ensures WireIsFrames(Step(s, a))
  {
    match a {
      case Transfer(count) =>
        hide FrameOf, Encoding, WireIsFrames;
        if IsWriting(s) && 0 < count <= |FrameOf(s.writer.value.message)| - s.writer.value.offset {
          TransferWires(s, count);
        }
      case Fail(count) =>
        hide FrameOf, Encoding, WireIsFrames;
        if IsWriting(s) && count <= |FrameOf(s.writer.value.message)| - s.writer.value.offset { FailWires(s, count); }
      case BeginEvent =>
        hide FrameOf, Encoding, Encodings, HoldsPart, Stream;
        if s.section.Ready? && s.writer.None? && s.connected { BeginWires(s, s.section.event, true); }
      case BeginOther(message) =>
        hide FrameOf, Encoding, Encodings, HoldsPart, Stream;
        if s.writer.None? && s.connected && IsSendable(message) && message.kind != Event {
          BeginWires(s, message, false);
        }
      case _ => hide FrameOf, Encoding, HoldsPart, IsSendable;
    }
  }

  lemma StepLocks(s: State, a: Action)
    requires Locks(s) && AreSendable(Messages(s))
    ensures Locks(Step(s, a)) && AreSendable(Messages(Step(s, a)))
  {
    hide IsSendable, Encoding;
  }

  lemma StepKeeps(s: State, a: Action)
    requires Invariant(s)
    ensures Invariant(Step(s, a))
  {
    IssuedGrows(s, a);
    hide Locks, WireIsFrames, NumbersGrow, AreSendable, Step;
    StepLocks(s, a);
    StepWires(s, a);
    if Step(s, a).issued < UINT64_RANGE { StepNumbers(s, a); }
  }

  lemma IssuedGrows(s: State, a: Action)
    ensures Step(s, a).issued >= s.issued
  {
  }

  lemma {:induction false} RunKeeps(s: State, actions: seq<Action>)
    requires Invariant(s)
    ensures Invariant(Run(s, actions))
    decreases |actions|
  {
    hide Invariant, Step;
    if actions != [] {
      StepKeeps(s, actions[0]);
      RunKeeps(Step(s, actions[0]), actions[1..]);
    }
  }

  /**
   * In every interleaving of producers, short writes and failed writes: whole frames in lock order and then at most one
   * that may be incomplete, and strictly increasing event numbers as long as fewer than 2^64 were ever given.
   */
  lemma WireIsOrdered(actions: seq<Action>)
    ensures var s := Run(INITIAL, actions);
            && WireIsFrames(s) && AreSendable(Messages(s)) && |Messages(s)| <= |s.log| + 1
            && (s.issued < UINT64_RANGE ==>
                  Increasing(Numbers(Messages(s))) && AllBelow(Numbers(Messages(s)), s.issued))
  {
    hide *;
    InitialHolds();
    RunKeeps(INITIAL, actions);
    InvariantParts(Run(INITIAL, actions));
  }

  lemma InitialHolds()
    ensures Invariant(INITIAL)
  {
    NothingNumbered(INITIAL);
  }

  lemma InvariantParts(s: State)
    requires Invariant(s)
    ensures WireIsFrames(s) && AreSendable(Messages(s)) && |Messages(s)| <= |s.log| + 1
    ensures s.issued < UINT64_RANGE ==> Increasing(Numbers(Messages(s))) && AllBelow(Numbers(Messages(s)), s.issued)
  {
    hide WireIsFrames, AreSendable, Numbers, Increasing, AllBelow, Locks;
  }
}
