/** The two methods under their locks, run by one thread: every effect is a run of the steps of EventTransport. */
module EventPipe {
  import opened Basics
  import opened FrameCodec
  import opened Envelope
  import opened EventTransport

  /** What one WriteFile does: transfers some octets, or fails after transferring some. */
  datatype WriteResult = Wrote(count: nat) | WriteFailed(count: nat)

  /** A write that goes well, in full or in part. */
  predicate Transfers(result: WriteResult) {
    result.Wrote? && result.count > 0
  }

  lemma {:induction false} RunMore(s: State, actions: seq<Action>, a: Action)
    ensures Run(s, actions + [a]) == Step(Run(s, actions), a)
    decreases |actions|
  {
    hide Step;
    if actions == [] {
      assert [] + [a] == [a] && [a][1..] == [];
      assert Run(s, [a]) == Run(Step(s, a), []);
    } else {
      assert (actions + [a])[1..] == actions[1..] + [a];
      RunMore(Step(s, actions[0]), actions[1..], a);
    }
  }

  /** Some part of a frame follows what was there. */
  ghost predicate HoldsSome(wire: Text, was: Text, frame: Text) {
    exists n: nat :: n <= |frame| && wire == was + frame[..n]
  }

  lemma Grown(start: Text, was: Text, wire: Text, frame: Text, offset: nat, n: nat)
    requires offset + n <= |frame| && was == start + frame[..offset] && wire == was + frame[offset..offset + n]
    ensures wire == start + frame[..offset + n] && HoldsSome(wire, start, frame)
  {
    assert frame[..offset] + frame[offset..offset + n] == frame[..offset + n];
  }

  class Pipe {
    var nextSequence: nat
    var connected: bool
    ghost var issued: nat
    ghost var section: Section
    ghost var writer: Option<Writer>
    ghost var wire: Text
    ghost var log: seq<Envelope>
    ghost var attempt: Option<Writer>

    ghost function View(): State
      reads this
    {
      State(nextSequence, issued, section, writer, connected, wire, log, attempt)
    }

    constructor ()
      ensures View() == INITIAL
    {
      nextSequence, connected, issued, section, writer, wire, log, attempt := 0, false, 0, Free, None, [], [], None;
    }

    /** Everything the machine does not count as state is set from t: the ghost part of a step. */
    ghost method Become(t: State)
      requires t.nextSequence == nextSequence && t.connected == connected
      modifies this`issued, this`section, this`writer, this`wire, this`log, this`attempt
      ensures View() == t
    {
      issued, section, writer, wire, log, attempt := t.issued, t.section, t.writer, t.wire, t.log, t.attempt;
    }

    /** This thread is inside the write lock, offset octets of its frame transferred. */
    ghost predicate IsAt(message: Envelope, offset: nat, numbered: bool)
      reads this
    {
      && connected && offset < |FrameOf(message)| && writer == Some(Writer(message, offset, numbered))
      && (numbered ==> section == Sending(message))
    }

    /** One WriteFile; none reports more than it was given. */
    method WriteSome(ghost message: Envelope, frame: Text, offset: nat, result: WriteResult, ghost numbered: bool)
      returns (written: nat, ghost action: Action)
      requires IsAt(message, offset, numbered) && frame == FrameOf(message)
      modifies this
      ensures View() == Step(old(View()), action) && nextSequence == old(nextSequence) && issued == old(issued)
      ensures !connected ==>
                writer.None? && log == old(log) && section == (if numbered then Finished(false) else old(section))
      ensures connected <==> Transfers(result)
      ensures written == (if result.count > |frame| - offset then |frame| - offset else result.count)
      ensures offset + written <= |frame| && wire == old(wire) + frame[offset..offset + written]
              && (connected ==> written > 0)
      ensures connected && offset + written < |frame| ==>
                IsAt(message, offset + written, numbered) && log == old(log) && section == old(section)
      ensures connected && offset + written == |frame| ==>
                && writer.None? && log == old(log) + [message]
                && section == (if numbered then Finished(true) else old(section))
    {
      hide IsSendable, FrameOf, Encoding;
      var remaining := |frame| - offset;
      written := if result.count > remaining then remaining else result.count;
      var failed := result.WriteFailed? || written == 0;
      action := if failed then Fail(written) else Transfer(written);
      ghost var after := Step(View(), action);
      if failed { connected := false; }
      Become(after);
    }

    /**
     * Send inside the write lock. On success the whole frame is on the wire; on failure the connection is retired,
     * or it was never used. writes says what each WriteFile does.
     */
    method Send(message: Envelope, writes: nat -> WriteResult, ghost numbered: bool)
      returns (ok: bool, ghost trace: seq<Action>)
      requires View().writer.None? && IsSendable(message)
      requires if numbered then section == Ready(message) else message.kind != Event
      modifies this
      ensures View() == Run(old(View()), trace) && writer.None? && nextSequence == old(nextSequence)
              && issued == old(issued)
      ensures ok ==> connected && log == old(log) + [message] && wire == old(wire) + FrameOf(message)
      ensures !ok ==> !connected && log == old(log) && HoldsSome(wire, old(wire), FrameOf(message))
      ensures old(connected) && (forall k: nat :: Transfers(writes(k))) ==> ok
      ensures section == if numbered then Finished(ok) else old(section)
    {
      hide IsSendable, FrameOf, Encoding, Run;
      trace := [if numbered then BeginEvent else BeginOther(message)];
      RunOne(View(), trace[0]);
      Become(Step(View(), trace[0]));
      var frame := FrameOf(message);
      assert wire == old(wire) + frame[..0];
      if !connected { return false, trace; }
      var offset := 0;
      var calls := 0;
      hide Step, HoldsSome;
      while offset < |frame|
        invariant offset <= |frame| && connected && nextSequence == old(nextSequence) && issued == old(issued)
        invariant View() == Run(old(View()), trace) && wire == old(wire) + frame[..offset]
        invariant if offset < |frame|
                  then IsAt(message, offset, numbered) && log == old(log) && (!numbered ==> section == old(section))
                  else
                    && writer.None? && log == old(log) + [message]
                    && section == (if numbered then Finished(true) else old(section))
        decreases |frame| - offset
      {
        ghost var before := View();
        ghost var was := wire;
        var written, action := WriteSome(message, frame, offset, writes(calls), numbered);
        calls := calls + 1;
        RunMore(old(View()), trace, action);
        trace := trace + [action];
        Grown(old(wire), was, wire, frame, offset, written);
        if !connected { return false, trace; }
        offset := offset + written;
      }
      assert frame[..|frame|] == frame;
      return true, trace;
    }

    /** SequencedEventWriter::Send: the number is used up whether or not the event is sent. */
    method SendEvent(name: Text, timestamp: Text, payload: Text, writes: nat -> WriteResult)
      returns (ok: bool, ghost trace: seq<Action>)
      requires section.Free? && writer.None?
      modifies this
      ensures View() == Run(old(View()), trace) && section.Free? && writer.None?
      ensures nextSequence == (old(nextSequence) + 1) % UINT64_RANGE && issued == old(issued) + 1
      ensures var event := Envelope(1, Kind.Event, None, Some(old(nextSequence)), name, timestamp, payload);
              && log == (if ok then old(log) + [event] else old(log))
              && (old(connected) && IsSendable(event) && (forall k: nat :: Transfers(writes(k))) ==> ok)
    {
      hide IsSendable, FrameOf, Encoding, Run;
      var event := EventOf(nextSequence, name, timestamp, payload);
      ghost var begin := View();
      trace := [TakeNumber(name, timestamp, payload)];
      RunOne(begin, trace[0]);
      nextSequence := (nextSequence + 1) % UINT64_RANGE;
      Become(Step(begin, trace[0]));
      RunMore(begin, trace, Prepare);
      trace := trace + [Prepare];
      Become(Step(View(), Prepare));
      if IsSendable(event) {
        ghost var middle, rest := View(), [];
        ok, rest := Send(event, writes, true);
        RunConcat(begin, trace, rest);
        trace := trace + rest;
      } else {
        ok := false;
      }
      RunMore(begin, trace, Leave);
      trace := trace + [Leave];
      Become(Step(View(), Leave));
    }
  }

  /** One thread connects and sends an event, all of its frame in one write. */
  function WholeEvent(name: Text, timestamp: Text, payload: Text, size: nat): seq<Action> {
    [Connect, TakeNumber(name, timestamp, payload), Prepare, BeginEvent, Transfer(size), Leave]
  }

  /** A new connection starts with an empty wire, goes on with the numbers, and carries the event. */
  lemma ConnectedCarries(s: State, name: Text, timestamp: Text, payload: Text)
    requires !s.connected && s.section.Free? && s.writer.None?
    ensures var event := Envelope(1, Kind.Event, None, Some(s.nextSequence), name, timestamp, payload);
            IsSendable(event) ==>
              var t := Run(s, WholeEvent(name, timestamp, payload, 4 + |Encode(event)|));
              && t.connected && t.log == [event] && t.wire == Frame(Encode(event)) && t.attempt == None
              && t.nextSequence == (s.nextSequence + 1) % UINT64_RANGE && t.section.Free? && t.writer.None?
  {
    var event := EventOf(s.nextSequence, name, timestamp, payload);
    if IsSendable(event) {
      EncodingIs(event);
      hide IsSendable, FrameOf, Encoding, Run, Step, AreOctets, Encode, Frame;
      var actions := WholeEvent(name, timestamp, payload, |FrameOf(event)|);
      SixSteps(s, actions);
      EventBegins(s, name, timestamp, payload);
      var begun := Step(Step(Step(Step(s, actions[0]), actions[1]), actions[2]), actions[3]);
      FrameGoes(begun, event);
    }
  }

  lemma EventBegins(s: State, name: Text, timestamp: Text, payload: Text)
    requires !s.connected && s.section.Free? && s.writer.None?
    requires IsSendable(EventOf(s.nextSequence, name, timestamp, payload))
    ensures var event := EventOf(s.nextSequence, name, timestamp, payload);
            Step(Step(Step(Step(s, Connect), TakeNumber(name, timestamp, payload)), Prepare), BeginEvent)
            == State((s.nextSequence + 1) % UINT64_RANGE, s.issued + 1, Sending(event), Some(Writer(event, 0, true)),
              true,
                     [], [], None)
  {
    hide IsSendable, FrameOf, Encoding;
  }

  lemma FrameGoes(s: State, event: Envelope)
    requires s.section == Sending(event) && s.writer == Some(Writer(event, 0, true)) && s.wire == [] && s.log == []
    ensures Step(Step(s, Transfer(|FrameOf(event)|)), Leave)
         == s.(section := Free, writer := None, wire := FrameOf(event), log := [event])
  {
    hide IsSendable, FrameOf, Encoding;
    var frame := FrameOf(event);
    assert frame[0..|frame|] == frame && [] + frame == frame && [] + [event] == [event];
  }

  lemma EncodingIs(event: Envelope)
    requires IsSendable(event)
    ensures AreOctets(event) && Encoding(event) == Encode(event) && FrameOf(event) == Frame(Encode(event))
  {
  }

  lemma SixSteps(s: State, actions: seq<Action>)
    requires |actions| == 6
    ensures Run(s, actions) == Step(Step(Step(Step(Step(Step(s, actions[0]), actions[1]), actions[2]), actions[3]),
              actions[4]),
                                    actions[5])
  {
    hide Step;
    RunMore(s, actions[..5], actions[5]);
    RunMore(s, actions[..4], actions[4]);
    RunMore(s, actions[..3], actions[3]);
    RunMore(s, actions[..2], actions[2]);
    RunMore(s, actions[..1], actions[1]);
    RunOne(s, actions[0]);
    assert actions == actions[..5] + [actions[5]] && actions[..5] == actions[..4] + [actions[4]];
    assert actions[..4] == actions[..3] + [actions[3]] && actions[..3] == actions[..2] + [actions[2]];
    assert actions[..2] == actions[..1] + [actions[1]] && actions[..1] == [actions[0]];
  }

  lemma RunOne(s: State, a: Action)
    ensures Run(s, [a]) == Step(s, a)
  {
    hide Step;
    assert Run(s, [a]) == Run(Step(s, a), []);
  }

  lemma {:induction false} RunConcat(s: State, a: seq<Action>, b: seq<Action>)
    ensures Run(s, a + b) == Run(Run(s, a), b)
    decreases |a|
  {
    hide Step;
    if a == [] {
      assert a + b == b;
    } else {
      assert (a + b)[1..] == a[1..] + b;
      RunConcat(Step(s, a[0]), a[1..], b);
    }
  }
}
