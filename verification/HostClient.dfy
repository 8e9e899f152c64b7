/**
 * The request table of apps/desktop/src/main/native-host/native-host-client.ts. Handlers run to completion; between
 * them come responses, events, malformed input, timeouts, disconnects, new requests, close and connect, in any order.
 * A handler does not know which socket called it, so neither do the inputs here.
 */
module HostClient {
  import opened Basics

  type Id = string

  datatype Rejection = TimedOut | HostError | Disconnected | Closed

  /** Twice: settled again after it was settled. */
  datatype Promise = Unsettled | Resolved(name: string) | Rejected(reason: Rejection) | Twice

  /** destroyed: the socket is still held but can no longer be written to. */
  datatype Socket = Socket(destroyed: bool)

  /**
   * The last four fields are history: what each id asked for, and since the last connect the events handed on, whether
   * a hello asked for pointer-down events, and whether a ready answer granted them.
   */
  datatype State = State(
    socket: Option<Socket>, pending: map<Id, string>, timers: set<Id>, promises: map<Id, Promise>,
    lastEventSeq: int, requested: bool, negotiated: bool, requests: map<Id, string>, emitted: seq<int>,
    asked: bool, granted: bool)

  datatype Input =
    | Connect
    | Request(id: Id, name: string, pointerDown: bool)
    | Response(id: Id, name: string, pointerDown: bool)
    | Event(name: string, seqNumber: nat, related: Option<Id>)
    | Malformed
    | Timeout(id: Id)
    | Disconnect
    | Destroy
    | Close

  const POINTER_DOWN := "input/pointer-down"
  const HOST_ERROR := "host/error"

  const INITIAL := State(None, map[], {}, map[], -1, false, false, map[], [], false, false)

  function Expected(name: string): string {
    if name == "hello" then "ready" else name
  }

  // ----- The handlers -----

  function Settle(promises: map<Id, Promise>, id: Id, how: Promise): map<Id, Promise> {
    promises[id := if id in promises && promises[id] != Unsettled then Twice else how]
  }

  /** The request leaves the table, its timer is cleared and its promise settled. */
  function Settled(s: State, id: Id, how: Promise): State {
    s.(pending := s.pending - {id}, timers := s.timers - {id}, promises := Settle(s.promises, id, how))
  }

  /** Each of some promises rejected once. */
  function RejectMany(promises: map<Id, Promise>, ids: set<Id>, reason: Rejection): map<Id, Promise> {
    map id | id in promises.Keys + ids ::
      if id !in ids then promises[id]
      else if id in promises && promises[id] != Unsettled then Twice else Rejected(reason)
  }

  function RejectPending(s: State, reason: Rejection): State {
    s.(pending := map[], timers := s.timers - s.pending.Keys,
      promises := RejectMany(s.promises, s.pending.Keys, reason))
  }

  function CloseWithError(s: State): State {
    if s.socket.None? then s else RejectPending(s.(socket := None), Disconnected)
  }

  function HandleResponse(s: State, id: Id, name: string, pointerDown: bool): State {
    if id !in s.pending || s.pending[id] != name then CloseWithError(s)
    else Settled(s, id, Resolved(name)).(negotiated := if name == "ready" then s.requested && pointerDown
      else s.negotiated,
                                         granted := s.granted || (name == "ready" && pointerDown))
  }

  function HandleEvent(s: State, name: string, seqNumber: nat, related: Option<Id>): State {
    if name == POINTER_DOWN && !s.negotiated then CloseWithError(s)
    else if seqNumber <= s.lastEventSeq then CloseWithError(s)
    else
      var seen := s.(lastEventSeq := seqNumber, emitted := s.emitted + [seqNumber]);
      if name == HOST_ERROR && related.Some? && related.value in s.pending then
        Settled(seen, related.value, Rejected(HostError))
      else seen
  }

  /** Fresh ids, and timers that fire only while armed; everything else may come at any time. */
  predicate Enabled(s: State, i: Input) {
    match i
    case Request(id, _, _) => id !in s.requests
    case Timeout(id) => id in s.timers
    case _ => true
  }

  function Step(s: State, i: Input): State {
    if !Enabled(s, i) then s
    else
      match i
      case Connect =>
        if s.socket.Some? then s
        else s.(socket := Some(Socket(false)), lastEventSeq := -1, requested := false, negotiated := false,
          emitted := [],
                asked := false, granted := false)
      case Request(id, name, pointerDown) =>
        if s.socket.None? || s.socket.value.destroyed then s
        else s.(pending := s.pending[id := Expected(name)], timers := s.timers + {id},
          promises := Settle(s.promises, id, Unsettled),
                requested := if name == "hello" then pointerDown else s.requested, requests := s.requests[id := name],
                asked := s.asked || (name == "hello" && pointerDown))
      case Response(id, name, pointerDown) => HandleResponse(s, id, name, pointerDown)
      case Event(name, seqNumber, related) => HandleEvent(s, name, seqNumber, related)
      case Malformed => CloseWithError(s)
      case Timeout(id) => Settled(s, id, Rejected(TimedOut))
      case Disconnect => CloseWithError(s)
      case Destroy => if s.socket.None? then s else s.(socket := Some(Socket(true)))
      case Close => RejectPending(s.(socket := None), Closed)
  }

  function Run(s: State, inputs: seq<Input>): State
    decreases |inputs|
  {
    if inputs == [] then s else Run(Step(s, inputs[0]), inputs[1..])
  }

  // ----- What every input keeps -----

  /**
   * In the table exactly when unsettled, timer armed exactly then, nothing settled twice, only the
   * right answer resolves.
   */
  predicate IdFits(s: State, id: Id) {
    && (id in s.promises <==> id in s.requests)
    && (id in s.pending <==> id in s.promises && s.promises[id] == Unsettled)
    && (id in s.timers <==> id in s.pending)
    && (id in s.promises ==> s.promises[id] != Twice)
    && (id in s.pending ==> s.pending[id] == Expected(s.requests[id]))
    && (id in s.promises && s.promises[id].Resolved? ==> s.promises[id].name == Expected(s.requests[id]))
  }

  predicate Increasing(ns: seq<int>) {
    forall i, j | 0 <= i < j < |ns| :: ns[i] < ns[j]
  }

  ghost predicate Invariant(s: State) {
    && (forall id :: IdFits(s, id)) && (s.socket.None? ==> s.pending == map[])
    && Increasing(s.emitted) && (forall n | n in s.emitted :: n <= s.lastEventSeq) && s.lastEventSeq >= -1
    && (s.requested ==> s.asked) && (s.negotiated ==> s.asked && s.granted)
  }

  lemma SettledFits(s: State, id: Id, how: Promise)
    requires (forall x :: IdFits(s, x)) && id in s.pending && (how.Rejected? || how == Resolved(s.pending[id]))
    ensures forall x :: IdFits(Settled(s, id, how), x)
  {
    var t := Settled(s, id, how);
    forall x ensures IdFits(t, x) { assert IdFits(s, x); }
  }

  lemma RejectPendingFits(s: State, reason: Rejection)
    requires forall x :: IdFits(s, x)
    ensures forall x :: IdFits(RejectPending(s, reason), x)
  {
    var t := RejectPending(s, reason);
    forall x ensures IdFits(t, x) { assert IdFits(s, x); }
  }

  lemma RequestFits(s: State, id: Id, name: string, pointerDown: bool)
    requires (forall x :: IdFits(s, x)) && id !in s.requests
    ensures forall x :: IdFits(Step(s, Request(id, name, pointerDown)), x)
  {
    var t := Step(s, Request(id, name, pointerDown));
    assert IdFits(s, id);
    forall x ensures IdFits(t, x) { assert IdFits(s, x); }
  }

  lemma SeenGrows(emitted: seq<int>, last: int, n: int)
    requires Increasing(emitted) && (forall x | x in emitted :: x <= last) && n > last
    ensures Increasing(emitted + [n]) && forall x | x in emitted + [n] :: x <= n
  {
    assert forall k | 0 <= k < |emitted| :: emitted[k] in emitted;
  }

  lemma CloseKeeps(s: State)
    requires Invariant(s)
    ensures Invariant(CloseWithError(s))
  {
    var t := s.(socket := None);
    forall x ensures IdFits(t, x) { assert IdFits(s, x); }
    RejectPendingFits(t, Disconnected);
  }

  lemma ResponseKeeps(s: State, id: Id, name: string, pointerDown: bool)
    requires Invariant(s)
    ensures Invariant(HandleResponse(s, id, name, pointerDown))
  {
    if id !in s.pending || s.pending[id] != name {
      CloseKeeps(s);
    } else {
      SettledFits(s, id, Resolved(name));
      var t := HandleResponse(s, id, name, pointerDown);
      forall x ensures IdFits(t, x) { assert IdFits(Settled(s, id, Resolved(name)), x); }
    }
  }

  lemma EventKeeps(s: State, name: string, seqNumber: nat, related: Option<Id>)
    requires Invariant(s)
    ensures Invariant(HandleEvent(s, name, seqNumber, related))
  {
    if (name == POINTER_DOWN && !s.negotiated) || seqNumber <= s.lastEventSeq {
      CloseKeeps(s);
    } else {
      SeenGrows(s.emitted, s.lastEventSeq, seqNumber);
      var seen := s.(lastEventSeq := seqNumber, emitted := s.emitted + [seqNumber]);
      forall x ensures IdFits(seen, x) { assert IdFits(s, x); }
      if name == HOST_ERROR && related.Some? && related.value in s.pending {
        SettledFits(seen, related.value, Rejected(HostError));
      }
    }
  }

  lemma StepKeeps(s: State, i: Input)
    requires Invariant(s)
    ensures Invariant(Step(s, i))
  {
    var t := Step(s, i);
    if Enabled(s, i) {
      match i {
        case Request(id, name, pointerDown) => RequestFits(s, id, name, pointerDown);
        case Response(id, name, pointerDown) => ResponseKeeps(s, id, name, pointerDown);
        case Event(name, seqNumber, related) => EventKeeps(s, name, seqNumber, related);
        case Timeout(id) =>
          assert IdFits(s, id);
          SettledFits(s, id, Rejected(TimedOut));
        case Close =>
          var u := s.(socket := None);
          forall x ensures IdFits(u, x) { assert IdFits(s, x); }
          RejectPendingFits(u, Closed);
        case Connect => forall x ensures IdFits(t, x) { assert IdFits(s, x); }
        case Destroy => forall x ensures IdFits(t, x) { assert IdFits(s, x); }
        case _ => CloseKeeps(s);
      }
    }
  }

  lemma {:induction false} RunKeeps(s: State, inputs: seq<Input>)
    requires Invariant(s)
    ensures Invariant(Run(s, inputs))
    decreases |inputs|
  {
    hide Invariant, Step;
    if inputs != [] {
      StepKeeps(s, inputs[0]);
      RunKeeps(Step(s, inputs[0]), inputs[1..]);
    }
  }

  lemma InitialHolds()
    ensures Invariant(INITIAL)
  {
  }

  /**
   * In every run: an id is in the table exactly when its promise is unsettled and exactly when its timer is armed; no
   * promise is settled twice; without a socket nothing is pending; a request resolves only with the answer it expects;
   * the events handed on since the last connect have growing numbers; and pointer-down events count as negotiated only
   * after this connection asked for them and was granted them.
   */
  lemma EachRequestSettlesOnce(inputs: seq<Input>, id: Id)
    ensures var s := Run(INITIAL, inputs);
            && (id in s.pending <==> id in s.promises && s.promises[id] == Unsettled)
            && (id in s.timers <==> id in s.pending) && (id in s.promises <==> id in s.requests)
            && (id in s.promises ==> s.promises[id] != Twice)
            && (s.socket.None? ==> s.pending == map[])
            && (id in s.promises && s.promises[id].Resolved? ==> s.promises[id].name == Expected(s.requests[id]))
            && Increasing(s.emitted) && (s.negotiated ==> s.asked && s.granted)
  {
    InitialHolds();
    RunKeeps(INITIAL, inputs);
    hide Run;
    assert IdFits(Run(INITIAL, inputs), id);
  }

  /** A settled promise stays as it is, and a request resolves only at a response of its id and expected name. */
  lemma SettledIsFinal(before: seq<Input>, i: Input, id: Id)
    requires id in Run(INITIAL, before).promises
    ensures var s, t := Run(INITIAL, before), Step(Run(INITIAL, before), i);
            && id in t.promises && id in s.requests
            && (s.promises[id] != Unsettled ==> t.promises[id] == s.promises[id])
            && (s.promises[id] == Unsettled && t.promises[id].Resolved? ==>
                  i.Response? && i.id == id && i.name == Expected(s.requests[id]) && t.promises[id] == Resolved(i.name))
  {
    InitialHolds();
    RunKeeps(INITIAL, before);
    hide Run;
    StepSettles(Run(INITIAL, before), i, id);
  }

  /** A settled promise is untouched, and one that is not is not resolved. */
  predicate LeavesSettled(s: State, t: State, id: Id)
    requires id in s.promises
  {
    && id in t.promises && (s.promises[id] != Unsettled ==> t.promises[id] == s.promises[id])
    && (s.promises[id] == Unsettled ==> !t.promises[id].Resolved?)
  }

  lemma CloseSettles(s: State, id: Id, reason: Rejection)
    requires IdFits(s, id) && id in s.promises
    ensures LeavesSettled(s, RejectPending(s, reason), id) && LeavesSettled(s, CloseWithError(s), id)
  {
  }

  lemma EventSettles(s: State, name: string, seqNumber: nat, related: Option<Id>, id: Id)
    requires IdFits(s, id) && id in s.promises && (related.Some? ==> IdFits(s, related.value))
    ensures LeavesSettled(s, HandleEvent(s, name, seqNumber, related), id)
  {
    CloseSettles(s, id, Disconnected);
    hide CloseWithError;
  }

  lemma ResponseSettles(s: State, other: Id, name: string, pointerDown: bool, id: Id)
    requires IdFits(s, id) && id in s.promises && IdFits(s, other)
    ensures var t := HandleResponse(s, other, name, pointerDown);
            || LeavesSettled(s, t, id)
            || (&& id == other && s.promises[id] == Unsettled && name == Expected(s.requests[id])
                && t.promises == s.promises[id := Resolved(name)])
  {
    CloseSettles(s, id, Disconnected);
    hide CloseWithError, Expected;
  }

  lemma StepSettles(s: State, i: Input, id: Id)
    requires Invariant(s) && id in s.promises
    ensures var t := Step(s, i);
            && id in t.promises && id in s.requests
            && (s.promises[id] != Unsettled ==> t.promises[id] == s.promises[id])
            && (s.promises[id] == Unsettled && t.promises[id].Resolved? ==>
                  i.Response? && i.id == id && i.name == Expected(s.requests[id]) && t.promises[id] == Resolved(i.name))
  {
    assert IdFits(s, id);
    hide HandleEvent, HandleResponse, CloseWithError, RejectPending, Expected;
    match i {
      case Response(other, name, pointerDown) =>
        assert IdFits(s, other);
        ResponseSettles(s, other, name, pointerDown, id);
      case Event(name, seqNumber, related) =>
        if related.Some? { assert IdFits(s, related.value); }
        EventSettles(s, name, seqNumber, related, id);
      case Timeout(other) => assert IdFits(s, other);
      case Close => CloseSettles(s.(socket := None), id, Closed);
      case _ => CloseSettles(s, id, Disconnected);
    }
  }

  // ----- How each promise is settled -----

  /** The response an unsettled request waits for. */
  predicate IsAnswer(s: State, i: Input, id: Id) {
    i.Response? && i.id == id && id in s.requests && i.name == if s.requests[id] == "hello" then "ready"
      else s.requests[id]
  }

  predicate IsWaiting(s: State, id: Id) {
    id in s.promises && s.promises[id] == Unsettled
  }

  /** An event that passes the client's checks. */
  predicate IsAccepted(s: State, i: Input) {
    i.Event? && i.seqNumber > s.lastEventSeq && (i.name == "input/pointer-down" ==> s.negotiated)
  }

  /** What ends a connection as an error: the pipe, bad input, an event out of order, a response nobody waits for. */
  predicate Breaks(s: State, i: Input) {
    match i
    case Malformed => true
    case Disconnect => true
    case Event(_, _, _) => !IsAccepted(s, i)
    case Response(id, _, _) => !(IsWaiting(s, id) && IsAnswer(s, i, id))
    case _ => false
  }

  /** What an input makes of a promise that waits. */
  function Fate(s: State, i: Input, id: Id): Promise {
    if IsAnswer(s, i, id) then Resolved(i.name)
    else if i.Close? then Rejected(Closed)
    else if Breaks(s, i) then Rejected(Disconnected)
    else if i == Timeout(id) then Rejected(TimedOut)
    else if i.Event? && i.name == "host/error" && i.related == Some(id) then Rejected(HostError)
    else Unsettled
  }

  lemma PendingIsWaiting(s: State, id: Id)
    requires Invariant(s)
    ensures id in s.pending <==> IsWaiting(s, id)
    ensures id in s.pending ==> id in s.requests && s.pending[id] == Expected(s.requests[id]) && s.socket.Some?
    ensures id in s.promises ==> s.promises[id] != Twice
    ensures id in s.timers <==> id in s.pending
  {
    assert IdFits(s, id);
  }

  /** Closing settles what waits and touches nothing else. */
  lemma ClosingSettles(s: State, reason: Rejection, id: Id)
    requires Invariant(s) && id in s.promises
    ensures var t := RejectPending(s, reason);
            id in t.promises && t.promises[id] == if IsWaiting(s, id) then Rejected(reason) else s.promises[id]
  {
    PendingIsWaiting(s, id);
  }

  /** The socket after an input. */
  lemma SocketAfter(s: State, i: Input)
    requires Invariant(s) && s.socket.Some?
    ensures Step(s, i).socket == (if i.Close? || Breaks(s, i) then None else if i.Destroy? then Some(Socket(true))
              else s.socket)
  {
    if i.Response? { PendingIsWaiting(s, i.id); }
    hide Settle, RejectMany, Expected, Invariant;
  }

  lemma AnswerSettles(s: State, i: Input, id: Id)
    requires Invariant(s) && i.Response? && id in s.promises
    ensures var t := Step(s, i);
            && id in t.promises
            && t.promises[id] == (if !IsWaiting(s, id) then s.promises[id]
                                  else if IsAnswer(s, i, id) then Resolved(i.name)
                                  else if Breaks(s, i) then Rejected(Disconnected) else Unsettled)
  {
    PendingIsWaiting(s, id);
    PendingIsWaiting(s, i.id);
    ClosingSettles(s, Disconnected, id);
    hide RejectMany, Expected, Invariant;
  }

  lemma EventSettlesExactly(s: State, i: Input, id: Id)
    requires Invariant(s) && i.Event? && id in s.promises
    ensures var t := Step(s, i);
            && id in t.promises
            && t.promises[id] == (if !IsWaiting(s, id) then s.promises[id]
                                  else if Breaks(s, i) then Rejected(Disconnected)
                                  else if i.name == "host/error" && i.related == Some(id) then Rejected(HostError)
                                  else Unsettled)
  {
    PendingIsWaiting(s, id);
    if i.related.Some? { PendingIsWaiting(s, i.related.value); }
    ClosingSettles(s, Disconnected, id);
    hide RejectMany, Expected, Invariant;
  }

  lemma StepSettlesExactly(s: State, i: Input, id: Id)
    requires Invariant(s) && id in s.promises
    ensures var t := Step(s, i);
            && id in t.promises
            && t.promises[id] == (if !IsWaiting(s, id) then s.promises[id] else Fate(s, i, id))
  {
    PendingIsWaiting(s, id);
    if i.Response? {
      AnswerSettles(s, i, id);
    } else if i.Event? {
      EventSettlesExactly(s, i, id);
    } else {
      if i.Timeout? { PendingIsWaiting(s, i.id); }
      ClosingSettles(s, Disconnected, id);
      ClosingSettles(s, Closed, id);
      assert IdFits(s, id);
      hide RejectMany, Expected, Invariant, HandleEvent, HandleResponse;
    }
  }

  lemma {:induction false} RunLast(s: State, inputs: seq<Input>)
    requires inputs != []
    ensures Run(s, inputs) == Step(Run(s, inputs[..|inputs| - 1]), inputs[|inputs| - 1])
    decreases |inputs|
  {
    hide Step;
    if |inputs| == 1 {
      assert Run(Step(s, inputs[0]), inputs[1..]) == Step(s, inputs[0]);
    } else {
      assert inputs[..|inputs| - 1][1..] == inputs[1..][..|inputs| - 2];
      RunLast(Step(s, inputs[0]), inputs[1..]);
    }
  }

  /**
   * In every run, an unsettled promise resolves exactly at the response of its id and expected name. It is rejected as
   * timed out exactly at its timeout, with the host's error exactly at an accepted host error that names it, as closed
   * exactly when the client is closed, and as disconnected exactly at any other loss of the connection. Nothing else
   * settles it.
   */
  lemma SettlesExactly(before: seq<Input>, i: Input, id: Id)
    requires IsWaiting(Run(INITIAL, before), id)
    ensures var s, t := Run(INITIAL, before), Step(Run(INITIAL, before), i);
            && id in t.promises && s.socket.Some?
            && (forall name :: t.promises[id] == Resolved(name) <==> IsAnswer(s, i, id) && i.name == name)
            && (t.promises[id] == Rejected(TimedOut) <==> i == Timeout(id))
            && (t.promises[id] == Rejected(HostError) <==>
                  i.Event? && i.name == "host/error" && i.related == Some(id) && i.seqNumber > s.lastEventSeq)
            && (t.promises[id] == Rejected(Closed) <==> i.Close?)
            && (t.promises[id] == Rejected(Disconnected) <==> t.socket.None? && !i.Close?)
            && (t.socket.None? <==> i.Close? || Breaks(s, i))
            && t.promises[id] != Twice
  {
    hide Run, Step;
    InitialHolds();
    RunKeeps(INITIAL, before);
    var s := Run(INITIAL, before);
    PendingIsWaiting(s, id);
    StepSettlesExactly(s, i, id);
    SocketAfter(s, i);
    hide Invariant;
  }

  /** A response that is waited for settles its own promise alone and leaves the connection as it is. */
  lemma AnswerDisturbsNothing(before: seq<Input>, i: Input, id: Id, other: Id)
    requires IsWaiting(Run(INITIAL, before), id) && IsAnswer(Run(INITIAL, before), i, id)
    requires other != id && other in Run(INITIAL, before).promises
    ensures var s, t := Run(INITIAL, before), Step(Run(INITIAL, before), i);
            && t.socket == s.socket && t.lastEventSeq == s.lastEventSeq && t.emitted == s.emitted
            && other in t.promises && t.promises[other] == s.promises[other]
            && (id in t.promises && t.promises[id] == Resolved(i.name))
            && t.negotiated == (if i.name == "ready" then s.requested && i.pointerDown else s.negotiated)
            && t.granted == (if i.name == "ready" && i.pointerDown then true else s.granted)
  {
    InitialHolds();
    RunKeeps(INITIAL, before);
    hide Run;
    var s := Run(INITIAL, before);
    PendingIsWaiting(s, id);
    hide Invariant, RejectMany, Expected;
    assert Expected(s.requests[id]) == i.name by { ExpectedIs(s.requests[id]); }
  }

  lemma ExpectedIs(name: string)
    ensures Expected(name) == if name == "hello" then "ready" else name
  {
  }

  /**
   * A client without a connection opens one that remembers nothing of the last: any event number is accepted first,
   * pointer-down events have to be negotiated again, and no old request waits.
   */
  lemma ConnectStartsAfresh(before: seq<Input>, first: Input, id: Id)
    requires Run(INITIAL, before).socket.None? && first.Event? && first.name != "input/pointer-down"
    ensures var t := Step(Run(INITIAL, before), Connect);
            && t.socket == Some(Socket(false)) && !t.negotiated && !t.requested && !t.asked && !t.granted
            && t.emitted == [] && !IsWaiting(t, id)
            && Step(t, first).socket == t.socket && Step(t, first).emitted == [first.seqNumber]
            && t.promises == Run(INITIAL, before).promises
  {
    InitialHolds();
    RunKeeps(INITIAL, before);
    hide Run;
    PendingIsWaiting(Run(INITIAL, before), id);
    hide Invariant;
  }

  /** A request on a live connection waits from then on, and no other promise is touched; any other changes nothing. */
  lemma RequestWaits(before: seq<Input>, id: Id, name: string, pointerDown: bool, other: Id)
    requires id !in Run(INITIAL, before).requests
    ensures var s, t := Run(INITIAL, before), Step(Run(INITIAL, before), Request(id, name, pointerDown));
            if s.socket != Some(Socket(false)) then t == s
            else
              && IsWaiting(t, id) && id in t.requests && t.requests[id] == name && id in t.timers
              && t.socket == s.socket
              && t.requested == (if name == "hello" then pointerDown else s.requested)
              && t.asked == (if name == "hello" && pointerDown then true else s.asked)
              && (other != id ==> (other in t.promises <==> other in s.promises)
                                  && (other in s.promises ==> t.promises[other] == s.promises[other]))
  {
    InitialHolds();
    RunKeeps(INITIAL, before);
    hide Run;
    assert IdFits(Run(INITIAL, before), id);
  }

  lemma NewWaits(s: State, i: Input, id: Id)
    requires Invariant(s)
    ensures id in s.promises ==> id in Step(s, i).promises
    ensures id !in s.promises && id in Step(s, i).promises ==> Step(s, i).promises[id] == Unsettled
  {
    PendingIsWaiting(s, id);
    if i.Timeout? || i.Response? { PendingIsWaiting(s, i.id); }
    if i.Event? && i.related.Some? { PendingIsWaiting(s, i.related.value); }
    if id in s.promises { StepSettlesExactly(s, i, id); }
    hide Invariant, Expected;
  }

  lemma {:induction false} NeverWaited(inputs: seq<Input>, id: Id, k: nat)
    requires id !in Run(INITIAL, inputs).promises && k <= |inputs|
    ensures id !in Run(INITIAL, inputs[..k]).promises
    decreases |inputs| - k
  {
    if k < |inputs| {
      NeverWaited(inputs, id, k + 1);
      RunLast(INITIAL, inputs[..k + 1]);
      assert inputs[..k + 1][..k] == inputs[..k];
      InitialHolds();
      RunKeeps(INITIAL, inputs[..k]);
      hide Run, Step;
      NewWaits(Run(INITIAL, inputs[..k]), inputs[k], id);
    } else {
      assert inputs[..k] == inputs;
    }
  }

  /** At the k-th input the promise waits, and the input makes p of it. */
  predicate SettlesAt(inputs: seq<Input>, k: nat, id: Id, p: Promise)
    requires k < |inputs|
  {
    IsWaiting(Run(INITIAL, inputs[..k]), id) && Fate(Run(INITIAL, inputs[..k]), inputs[k], id) == p
  }

  lemma SettlesAtFront(inputs: seq<Input>, n: nat, id: Id, p: Promise)
    requires n < |inputs|
    ensures forall k | 0 <= k < n :: SettlesAt(inputs[..n], k, id, p) == SettlesAt(inputs, k, id, p)
  {
    hide Run, Fate;
    assert forall k | 0 <= k < n :: inputs[..n][..k] == inputs[..k];
  }

  lemma OneInputMore(inputs: seq<Input>, n: nat, id: Id, p: Promise)
    requires n + 1 == |inputs|
    ensures (exists k | 0 <= k < |inputs| :: SettlesAt(inputs, k, id, p)) <==>
            || (IsWaiting(Run(INITIAL, inputs[..n]), id) && Fate(Run(INITIAL, inputs[..n]), inputs[n], id) == p)
            || exists k | 0 <= k < n :: SettlesAt(inputs[..n], k, id, p)
  {
    SettlesAtFront(inputs, n, id, p);
    hide Run, Fate;
    var here := SettlesAt(inputs, n, id, p);
    hide SettlesAt;
    if exists k | 0 <= k < n :: SettlesAt(inputs[..n], k, id, p) {
      var k :| 0 <= k < n && SettlesAt(inputs[..n], k, id, p);
      assert SettlesAt(inputs, k, id, p);
    }
    if exists k | 0 <= k < n :: SettlesAt(inputs, k, id, p) {
      var k :| 0 <= k < n && SettlesAt(inputs, k, id, p);
      assert SettlesAt(inputs[..n], k, id, p);
    }
  }

  /** Over the whole run: a promise was settled as p exactly when some input made p of it while it waited. */
  lemma {:induction false} SettledBy(inputs: seq<Input>, id: Id, p: Promise)
    requires id in Run(INITIAL, inputs).promises && p != Unsettled
    ensures Run(INITIAL, inputs).promises[id] == p <==> exists k | 0 <= k < |inputs| :: SettlesAt(inputs, k, id, p)
    decreases |inputs|
  {
    if inputs != [] {
      hide Run, Fate, Invariant, Step, SettlesAt;
      var n := |inputs| - 1;
      RunLast(INITIAL, inputs);
      InitialHolds();
      RunKeeps(INITIAL, inputs[..n]);
      OneInputMore(inputs, n, id, p);
      if id in Run(INITIAL, inputs[..n]).promises {
        StepSettlesExactly(Run(INITIAL, inputs[..n]), inputs[n], id);
        SettledBy(inputs[..n], id, p);
      } else {
        NewWaits(Run(INITIAL, inputs[..n]), inputs[n], id);
        NeverSettled(inputs[..n], id, p);
      }
    }
  }

  lemma NeverSettled(inputs: seq<Input>, id: Id, p: Promise)
    requires id !in Run(INITIAL, inputs).promises
    ensures forall k | 0 <= k < |inputs| :: !SettlesAt(inputs, k, id, p)
  {
    hide Run, Fate;
    forall k | 0 <= k < |inputs| ensures !SettlesAt(inputs, k, id, p) { NeverWaited(inputs, id, k); }
  }

  // ----- Events -----

  /** The numbers pass the client's check one after the other. */
  predicate Grow(last: int, numbers: seq<nat>)
    decreases |numbers|
  {
    numbers == [] || (numbers[0] > last && Grow(numbers[0], numbers[1..]))
  }

  function EventNumbers(inputs: seq<Input>): seq<nat> {
    if inputs == [] then []
    else if inputs[0].Event? then [inputs[0].seqNumber] + EventNumbers(inputs[1..])
    else EventNumbers(inputs[1..])
  }

  /**
   * Whatever comes between the events neither closes the connection nor opens another, and pointer-down events come
   * only while they are negotiated.
   */
  predicate Undisturbed(s: State, inputs: seq<Input>)
    decreases |inputs|
  {
    inputs == [] ||
    (&& (if inputs[0].Event? then inputs[0].name == POINTER_DOWN ==> s.negotiated
         else if s.socket.Some? then Step(s, inputs[0]).socket.Some?
         else !inputs[0].Connect?)
     && Undisturbed(Step(s, inputs[0]), inputs[1..]))
  }

  /**
   * A connection that nothing else disturbs survives its events exactly when their numbers grow, whatever comes in
   * between; then each of them was handed on.
   */
  lemma {:induction false} EventsAreAccepted(s: State, inputs: seq<Input>)
    requires s.socket.Some? && Undisturbed(s, inputs)
    ensures Run(s, inputs).socket.Some? <==> Grow(s.lastEventSeq, EventNumbers(inputs))
    ensures Run(s, inputs).socket.Some? ==> Run(s, inputs).emitted == s.emitted + EventNumbers(inputs)
    decreases |inputs|
  {
    hide *;
    NoEvents(s, inputs);
    if inputs != [] {
      var t, rest := Step(s, inputs[0]), inputs[1..];
      FirstInput(s, inputs);
      EventOrNot(s, inputs[0]);
      if t.socket.Some? { EventsAreAccepted(t, rest); } else { StaysClosed(t, rest); }
      if inputs[0].Event? { GrowsOn(s.emitted, inputs[0].seqNumber, EventNumbers(rest), s.lastEventSeq); }
    }
  }

  lemma NoEvents(s: State, inputs: seq<Input>)
    ensures inputs == [] ==> Run(s, inputs) == s && EventNumbers(inputs) == [] && Grow(s.lastEventSeq, [])
    ensures s.emitted + [] == s.emitted
  {
  }

  lemma FirstInput(s: State, inputs: seq<Input>)
    requires inputs != [] && s.socket.Some? && Undisturbed(s, inputs)
    ensures var t, rest := Step(s, inputs[0]), inputs[1..];
            && Run(s, inputs) == Run(t, rest) && Undisturbed(t, rest)
            && EventNumbers(inputs) == (if inputs[0].Event? then [inputs[0].seqNumber] else []) + EventNumbers(rest)
            && (if inputs[0].Event? then inputs[0].name == POINTER_DOWN ==> s.negotiated else t.socket.Some?)
            && (!inputs[0].Event? ==> EventNumbers(inputs) == EventNumbers(rest))
  {
    hide Step;
  }

  lemma GrowsOn(emitted: seq<int>, n: nat, rest: seq<nat>, last: int)
    ensures Grow(last, [n] + rest) <==> n > last && Grow(n, rest)
    ensures emitted + [n] + rest == emitted + ([n] + rest)
  {
    assert ([n] + rest)[1..] == rest;
  }

  /** What one input does to an open connection. */
  lemma EventOrNot(s: State, i: Input)
    requires s.socket.Some? && (i.Event? && i.name == POINTER_DOWN ==> s.negotiated)
    ensures var t := Step(s, i);
            if i.Event? then
              && (t.socket.Some? <==> i.seqNumber > s.lastEventSeq)
              && (t.socket.Some? ==> t.lastEventSeq == i.seqNumber && t.emitted == s.emitted + [i.seqNumber])
            else t.socket.Some? ==> t.lastEventSeq == s.lastEventSeq && t.emitted == s.emitted
  {
    hide Settle, RejectMany, Expected;
    if i.Event? {
      hide HandleResponse, RejectPending;
    } else {
      hide HandleEvent;
    }
  }

  lemma {:induction false} StaysClosed(s: State, inputs: seq<Input>)
    requires s.socket.None? && Undisturbed(s, inputs)
    ensures Run(s, inputs).socket.None?
    decreases |inputs|
  {
    if inputs != [] {
      ClosedStep(s, inputs[0]);
      hide Step;
      StaysClosed(Step(s, inputs[0]), inputs[1..]);
    }
  }

  lemma ClosedStep(s: State, i: Input)
    requires s.socket.None? && !i.Connect?
    ensures Step(s, i).socket.None?
  {
    hide Settle, RejectMany, Expected;
  }

  // ----- The client -----

  /** The loop of rejectPending with left still to do. */
  predicate Rejecting(s: State, t: State, left: set<Id>, reason: Rejection) {
    && left <= s.pending.Keys
    && t == s.(pending := s.pending - (s.pending.Keys - left), timers := s.timers - (s.pending.Keys - left),
               promises := RejectMany(s.promises, s.pending.Keys - left, reason))
  }

  lemma RejectOne(promises: map<Id, Promise>, done: set<Id>, id: Id, reason: Rejection)
    requires id !in done
    ensures RejectMany(promises, done + {id}, reason)
            == Settle(RejectMany(promises, done, reason), id, Rejected(reason))
  {
  }

  lemma RejectingStarts(s: State, reason: Rejection)
    ensures Rejecting(s, s, s.pending.Keys, reason)
  {
    assert s.pending.Keys - s.pending.Keys == {};
    assert RejectMany(s.promises, {}, reason) == s.promises;
    assert s.pending - {} == s.pending && s.timers - {} == s.timers;
  }

  lemma RejectingGoesOn(s: State, t: State, left: set<Id>, id: Id, reason: Rejection)
    requires Rejecting(s, t, left, reason) && id in left
    ensures Rejecting(s, Settled(t, id, Rejected(reason)), left - {id}, reason)
  {
    var done := s.pending.Keys - left;
    assert s.pending.Keys - (left - {id}) == done + {id};
    RejectOne(s.promises, done, id, reason);
    hide RejectMany, Settle;
    assert s.pending - done - {id} == s.pending - (done + {id});
    assert s.timers - done - {id} == s.timers - (done + {id});
  }

  lemma RejectingEnds(s: State, t: State, reason: Rejection)
    requires Rejecting(s, t, {}, reason)
    ensures t == RejectPending(s, reason)
  {
    assert s.pending.Keys - {} == s.pending.Keys;
    assert s.pending - s.pending.Keys == map[];
  }

  /** The client with its fields updated in place. Each handler is one step. */
  class NativeHostClient {
    var socket: Option<Socket>
    var pending: map<Id, string>
    var timers: set<Id>
    var promises: map<Id, Promise>
    var lastEventSeq: int
    var pointerDownEventsRequested: bool
    var pointerDownEventsNegotiated: bool
    ghost var requests: map<Id, string>
    ghost var emitted: seq<int>
    ghost var asked: bool
    ghost var granted: bool

    ghost function View(): State
      reads this
    {
      State(socket, pending, timers, promises, lastEventSeq, pointerDownEventsRequested, pointerDownEventsNegotiated,
            requests, emitted, asked, granted)
    }

    constructor ()
      ensures View() == INITIAL
    {
      socket, pending, timers, promises, lastEventSeq := None, map[], {}, map[], -1;
      pointerDownEventsRequested, pointerDownEventsNegotiated := false, false;
      requests, emitted, asked, granted := map[], [], false, false;
    }

    method SettlePromise(id: Id, how: Promise)
      modifies this`promises
      ensures promises == Settle(old(promises), id, how)
    {
      promises := promises[id := if id in promises && promises[id] != Unsettled then Twice else how];
    }

    method RejectAll(reason: Rejection)
      modifies this`pending, this`timers, this`promises
      ensures View() == RejectPending(old(View()), reason)
    {
      hide Rejecting, RejectMany;
      RejectingStarts(View(), reason);
      var left := pending.Keys;
      while left != {}
        invariant Rejecting(old(View()), View(), left, reason)
        decreases |left|
      {
        var id :| id in left;
        RejectingGoesOn(old(View()), View(), left, id, reason);
        timers := timers - {id};
        SettlePromise(id, Rejected(reason));
        pending := pending - {id};
        left := left - {id};
      }
      RejectingEnds(old(View()), View(), reason);
    }

    method CloseWith()
      modifies this`socket, this`pending, this`timers, this`promises
      ensures View() == CloseWithError(old(View()))
    {
      if socket.None? { return; }
      socket := None;
      RejectAll(Disconnected);
    }

    method Open()
      modifies this
      ensures View() == Step(old(View()), Connect)
    {
      hide CloseWithError, Settle, RejectPending, HandleEvent, HandleResponse;
      if socket.Some? { return; }
      lastEventSeq := -1;
      pointerDownEventsRequested := false;
      pointerDownEventsNegotiated := false;
      socket := Some(Socket(false));
      emitted, asked, granted := [], false, false;
    }

    method Send(id: Id, name: string, pointerDown: bool)
      requires id !in requests
      modifies this
      ensures View() == Step(old(View()), Request(id, name, pointerDown))
    {
      hide CloseWithError, Settle, RejectPending, HandleEvent, HandleResponse;
      if socket.None? || socket.value.destroyed { return; }
      if name == "hello" { pointerDownEventsRequested := pointerDown; }
      asked := asked || (name == "hello" && pointerDown);
      timers := timers + {id};
      SettlePromise(id, Unsettled);
      pending := pending[id := Expected(name)];
      requests := requests[id := name];
    }

    method OnResponse(id: Id, name: string, pointerDown: bool)
      modifies this
      ensures View() == Step(old(View()), Response(id, name, pointerDown))
    {
      hide CloseWithError, Settle, Expected;
      if id !in pending {
        CloseWith();
        return;
      }
      if name != pending[id] {
        CloseWith();
        return;
      }
      timers := timers - {id};
      pending := pending - {id};
      if name == "ready" { pointerDownEventsNegotiated := pointerDownEventsRequested && pointerDown; }
      granted := granted || (name == "ready" && pointerDown);
      SettlePromise(id, Resolved(name));
    }

    method OnEvent(name: string, seqNumber: nat, related: Option<Id>)
      modifies this
      ensures View() == Step(old(View()), Event(name, seqNumber, related))
    {
      hide CloseWithError, Settle, Expected;
      if name == POINTER_DOWN && !pointerDownEventsNegotiated {
        CloseWith();
        return;
      }
      if seqNumber <= lastEventSeq {
        CloseWith();
        return;
      }
      lastEventSeq := seqNumber;
      emitted := emitted + [seqNumber];
      if name == HOST_ERROR && related.Some? && related.value in pending {
        timers := timers - {related.value};
        pending := pending - {related.value};
        SettlePromise(related.value, Rejected(HostError));
      }
    }

    method OnTimeout(id: Id)
      requires id in timers
      modifies this
      ensures View() == Step(old(View()), Timeout(id))
    {
      hide CloseWithError, Settle, RejectPending, HandleEvent, HandleResponse;
      timers := timers - {id};
      pending := pending - {id};
      SettlePromise(id, Rejected(TimedOut));
    }

    method CloseClient()
      modifies this
      ensures View() == Step(old(View()), Close)
    {
      socket := None;
      RejectAll(Closed);
    }
  }
}
