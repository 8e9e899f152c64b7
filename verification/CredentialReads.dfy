/** With repository calls that take effect when called, loads are linearizable; with late effects they are not. */
module CredentialReads {
  import opened Basics
  import opened CredentialProtocol
  import opened CredentialSafety

  /** What a load has read, once it has. */
  function ReadValue(t: Task): Option<Option<Credentials>> {
    match t.phase
    case Reading(Some(found)) => Some(Plain(found))
    case Decrypting(read, _) => Some(Some(read.plain))
    case Reencrypting(read) => Some(Some(read.plain))
    case Replacing(read, _, _) => Some(Some(read.plain))
    case _ => None
  }

  /** No call is under way whose effect is still to come. */
  predicate NothingLate(t: Task) {
    (t.phase.Writing? ==> t.phase.landed) && (t.phase.Reading? ==> t.phase.found.Some?)
      && (t.phase.Replacing? ==> t.phase.landed)
  }

  /** What a load of the current generation has read is what is stored, and no mutation touched storage since. */
  predicate ReadHolds(s: State, t: Task) {
    t.op.Load? && Current(s, t) && ReadValue(t).Some? ==>
      ReadValue(t) == Some(Plain(s.stored)) && t.writesSeen == s.writes
  }

  predicate ReadsHold(s: State) {
    forall i | 0 <= i < |s.tasks| :: NothingLate(s.tasks[i]) && ReadHolds(s, s.tasks[i])
  }

  predicate EagerInvariant(s: State) {
    s.eager && Invariant(s) && ReadsHold(s)
  }

  /** A step of one task that leaves storage, counters and generation alone. */
  lemma QuietStep(s: State, t: State, i: nat)
    requires ReadsHold(s) && i < |s.tasks| == |t.tasks| && t.stored == s.stored && t.writes == s.writes
             && t.generation == s.generation
    requires forall j | 0 <= j < |s.tasks| && j != i :: t.tasks[j] == s.tasks[j]
    requires NothingLate(t.tasks[i]) && ReadHolds(t, t.tasks[i])
    ensures ReadsHold(t)
  {
    hide NothingLate, ReadHolds;
    forall j | 0 <= j < |t.tasks| ensures NothingLate(t.tasks[j]) && ReadHolds(t, t.tasks[j]) {
      if j != i {
        assert NothingLate(s.tasks[j]) && ReadHolds(s, s.tasks[j]);
        SameView(s, t, t.tasks[j]);
      }
    }
  }

  lemma SameView(s: State, t: State, task: Task)
    requires ReadHolds(s, task) && t.generation == s.generation && Plain(t.stored) == Plain(s.stored)
             && t.writes == s.writes
    ensures ReadHolds(t, task)
  {
  }

  /** A current mutation is pending, so no load of its generation has read: the effect of its write disturbs none. */
  lemma WriteDisturbsNone(s: State, i: nat, value: Option<Cipher>)
    requires EagerInvariant(s) && i < |s.tasks| && s.tasks[i].phase.Queued? && Current(s, s.tasks[i])
    ensures ReadsHold(Written(s, i, value))
  {
    var t := Written(s, i, value);
    assert TaskFits(s, s.tasks[i]) && IsMutation(s.tasks[i]) && s.generation in s.pending;
    forall j | 0 <= j < |t.tasks| ensures NothingLate(t.tasks[j]) && ReadHolds(t, t.tasks[j]) {
      if j != i {
        assert t.tasks[j] == s.tasks[j] && TaskFits(s, s.tasks[j]) && NothingLate(s.tasks[j]);
      }
    }
  }

  lemma SwapDisturbsNone(s: State, i: nat, read: Cipher, replacement: Cipher)
    requires EagerInvariant(s) && i < |s.tasks| && replacement.plain == read.plain
             && s.tasks[i].phase == Reencrypting(read)
    ensures ReadsHold(Replaced(s, i, read, replacement))
  {
    var t := Replaced(s, i, read, replacement);
    assert ReadHolds(s, s.tasks[i]);
    forall j | 0 <= j < |t.tasks| ensures NothingLate(t.tasks[j]) && ReadHolds(t, t.tasks[j]) {
      assert NothingLate(s.tasks[j]) && ReadHolds(s, s.tasks[j]);
      if j != i { SameView(s, t, t.tasks[j]); }
    }
  }

  lemma FetchReads(s: State, i: nat)
    requires ReadsHold(s) && i < |s.tasks|
    ensures ReadsHold(Fetched(s, i))
  {
    QuietStep(s, Fetched(s, i), i);
  }

  /** A phase in which nothing was read, or what was read before. */
  lemma PutReads(s: State, i: nat, phase: Phase)
    requires ReadsHold(s) && i < |s.tasks| && NothingLate(s.tasks[i].(phase := phase))
    requires var v := ReadValue(s.tasks[i].(phase := phase)); v.None? || v == ReadValue(s.tasks[i])
    ensures ReadsHold(Put(s, i, phase))
  {
    assert ReadHolds(s, s.tasks[i]);
    QuietStep(s, Put(s, i, phase), i);
  }

  lemma FailReads(s: State, i: nat)
    requires ReadsHold(s) && i < |s.tasks|
    ensures ReadsHold(Fail(s, i))
  {
    hide ReadsHold;
    var t := s.tasks[i];
    PutReads(s, i, if t.op.Load? then Done(if Readable(s, t) then Broken else Superseded)
                   else Finishing(if Current(s, t) then Broken else Superseded));
  }

  lemma BegunReads(s: State, op: Op)
    requires EagerInvariant(s)
    ensures ReadsHold(Begun(s, op))
  {
    var t := Begun(s, op);
    forall j | 0 <= j < |t.tasks| ensures NothingLate(t.tasks[j]) && ReadHolds(t, t.tasks[j]) {
      if j < |s.tasks| {
        assert t.tasks[j] == s.tasks[j] && NothingLate(s.tasks[j]) && ReadHolds(s, s.tasks[j])
               && TaskFits(s, s.tasks[j]);
      }
    }
  }

  lemma CheckedReads(s: State, i: nat, ok: bool)
    requires EagerInvariant(s) && i < |s.tasks| && s.tasks[i].phase.Checking?
    ensures ReadsHold(Checked(s, i, ok))
  {
    hide ReadsHold, Invariant;
    var t := s.tasks[i];
    if t.op.Save? && ok && Current(s, t) {
      PutReads(s, i, Encrypting);
    } else if t.op.Load? && ok && Readable(s, t) {
      FetchReads(s, i);
    } else {
      FailReads(s, i);
    }
  }

  lemma EncryptedReads(s: State, i: nat, ok: bool, nonce: nat)
    requires EagerInvariant(s) && i < |s.tasks|
    ensures ReadsHold(EncryptedStep(s, i, ok, nonce))
  {
    hide ReadsHold, Invariant;
    var t := s.tasks[i];
    if t.phase.Encrypting? && t.op.Save? {
      if ok && Current(s, t) {
        var queued := Put(s, i, Queued(Some(Cipher(t.op.credentials, nonce))));
        PutReads(s, i, Queued(Some(Cipher(t.op.credentials, nonce))));
        TailUnseen(queued, s.writeTail + [i]);
      } else {
        FailReads(s, i);
      }
    } else if t.phase.Reencrypting? {
      if ok && Readable(s, t) {
        SwapDisturbsNone(s, i, t.phase.read, Cipher(t.phase.read.plain, nonce));
      } else {
        FailReads(s, i);
      }
    }
  }

  /** Loads see neither the queue nor the set of pending mutations. */
  lemma TailUnseen(s: State, tail: seq<nat>)
    requires ReadsHold(s)
    ensures ReadsHold(s.(writeTail := tail))
  {
    forall j | 0 <= j < |s.tasks| ensures NothingLate(s.tasks[j]) && ReadHolds(s.(writeTail := tail), s.tasks[j]) {
      assert NothingLate(s.tasks[j]) && ReadHolds(s, s.tasks[j]);
    }
  }

  lemma PendingUnseen(s: State, pending: set<nat>)
    requires ReadsHold(s)
    ensures ReadsHold(s.(pending := pending))
  {
    forall j | 0 <= j < |s.tasks| ensures NothingLate(s.tasks[j]) && ReadHolds(s.(pending := pending), s.tasks[j]) {
      assert NothingLate(s.tasks[j]) && ReadHolds(s, s.tasks[j]);
    }
  }

  lemma StartedReads(s: State, i: nat)
    requires EagerInvariant(s) && i < |s.tasks|
    ensures ReadsHold(Started(s, i))
  {
    hide ReadsHold, Invariant;
    var t := s.tasks[i];
    if t.phase.Queued? && s.writeTail != [] && s.writeTail[0] == i {
      if !Current(s, t) {
        TailUnseen(s, s.writeTail[1..]);
        PutReads(Dequeue(s), i, Finishing(Superseded));
      } else {
        WriteDisturbsNone(s, i, t.phase.value);
      }
    }
  }

  lemma LandedReads(s: State, i: nat)
    requires EagerInvariant(s) && i < |s.tasks|
    ensures Landed(s, i) == s
  {
    assert NothingLate(s.tasks[i]);
  }

  lemma CompletedReads(s: State, i: nat, ok: bool)
    requires EagerInvariant(s) && i < |s.tasks|
    ensures ReadsHold(Completed(s, i, ok))
  {
    assert NothingLate(s.tasks[i]);
    hide ReadsHold, Invariant;
    var t := s.tasks[i];
    match t.phase {
      case Writing(_, landed) =>
        if s.writeTail != [] {
          TailUnseen(s, s.writeTail[1..]);
          PutReads(Dequeue(s), i, Finishing(if !ok then Broken else if Current(s, t) then Success else Superseded));
        }
      case Reading(found) =>
        if !ok || !Readable(s, t) {
          FailReads(s, i);
        } else {
          PutReads(s, i, if found.value.None? then Returned(None) else Decrypting(found.value.value, false));
        }
      case Replacing(read, _, landed) =>
        if !ok || !Readable(s, t) { FailReads(s, i); } else { PutReads(s, i, Returned(Some(read.plain))); }
      case _ =>
    }
  }

  lemma DecryptedReads(s: State, i: nat, ok: bool, rotate: bool)
    requires EagerInvariant(s) && i < |s.tasks|
    ensures ReadsHold(DecryptedStep(s, i, ok, rotate))
  {
    hide ReadsHold, Invariant;
    var t := s.tasks[i];
    if t.phase.Decrypting? {
      if !ok || !Readable(s, t) {
        FailReads(s, i);
      } else {
        PutReads(s, i, if t.phase.again then Reencrypting(t.phase.read)
                       else if rotate then Decrypting(t.phase.read, true) else Returned(Some(t.phase.read.plain)));
      }
    }
  }

  lemma FinishedReads(s: State, i: nat)
    requires EagerInvariant(s) && i < |s.tasks|
    ensures ReadsHold(Finished(s, i))
  {
    hide ReadsHold, Invariant;
    var t := s.tasks[i];
    if t.phase.Finishing? {
      var outcome := if t.op.Save? && t.phase.outcome != Success && !Current(s, t) then Superseded else t.phase.outcome;
      PutReads(s, i, Done(outcome));
      PendingUnseen(Put(s, i, Done(outcome)), s.pending - {t.generation});
    }
  }

  lemma EagerKeeps(s: State, a: Action)
    requires EagerInvariant(s)
    ensures EagerInvariant(Step(s, a))
  {
    StepKeeps(s, a);
    EagerStays(s, a);
    hide Invariant, ReadsHold;
    if a.Begin? {
      BegunReads(s, a.op);
    } else if a.task < |s.tasks| {
      var i := a.task;
      match a {
        case Available(_, ok) => if s.tasks[i].phase.Checking? { CheckedReads(s, i, ok); }
        case Encrypted(_, ok, nonce) => EncryptedReads(s, i, ok, nonce);
        case StartWrite(_) => StartedReads(s, i);
        case Land(_) => LandedReads(s, i);
        case Complete(_, ok) => CompletedReads(s, i, ok);
        case Decrypted(_, ok, rotate) => DecryptedReads(s, i, ok, rotate);
        case Finish(_) => FinishedReads(s, i);
      }
    }
  }

  lemma EagerStays(s: State, a: Action)
    ensures Step(s, a).eager == s.eager
  {
  }

  lemma {:induction false} EagerRun(s: State, actions: seq<Action>)
    requires EagerInvariant(s)
    ensures EagerInvariant(Run(s, actions))
    decreases |actions|
  {
    hide EagerInvariant, Step;
    if actions != [] {
      EagerKeeps(s, actions[0]);
      EagerRun(Step(s, actions[0]), actions[1..]);
    }
  }

  lemma InitialReads(s: State)
    requires Initial(s) && s.eager
    ensures EagerInvariant(s)
  {
    InitialHolds(s);
  }

  /**
   * A load that returns gives the plaintext stored at the moment of its last generation check, and no save or delete
   * took effect between its read and that check.
   */
  lemma LoadsAreLinearizable(s: State, actions: seq<Action>, a: Action)
    requires Initial(s) && s.eager && !a.Begin? && a.task < |Run(s, actions).tasks|
    requires var t := Run(s, actions); !t.tasks[a.task].phase.Returned?
    requires a.task < |Step(Run(s, actions), a).tasks| && Step(Run(s, actions), a).tasks[a.task].phase.Returned?
    ensures var t, u := Run(s, actions), Step(Run(s, actions), a);
            && u.tasks[a.task].phase.result == Plain(u.stored) && u.stored == t.stored
            && u.tasks[a.task].writesSeen == u.writes
  {
    InitialReads(s);
    EagerRun(s, actions);
    hide Run, EagerInvariant, Step, Plain;
    ReturnIsStored(Run(s, actions), a);
  }

  /** One step on a sound state: if the load returns at it, then with what is stored. */
  lemma ReturnIsStored(s: State, a: Action)
    requires EagerInvariant(s) && !a.Begin? && a.task < |s.tasks| && !s.tasks[a.task].phase.Returned?
    ensures a.task < |Step(s, a).tasks|
    ensures var u := Step(s, a);
            u.tasks[a.task].phase.Returned? ==>
              u.tasks[a.task].phase.result == Plain(u.stored) && u.stored == s.stored
                && u.tasks[a.task].writesSeen == u.writes
  {
    OthersStay(s, a, a.task);
    TaskIs(s, a.task);
    assert NothingLate(s.tasks[a.task]) && ReadHolds(s, s.tasks[a.task]);
    hide Invariant, ReadsHold;
    if Step(s, a).tasks[a.task].phase.Returned? {
      OnlyLoadsReturn(s, a);
      ReturnsWhatItRead(s, a);
    }
  }

  lemma OnlyLoadsReturn(s: State, a: Action)
    requires !a.Begin? && a.task < |s.tasks| && PhaseFits(s.tasks[a.task]) && !s.tasks[a.task].phase.Returned?
    requires Step(s, a).tasks[a.task].phase.Returned?
    ensures s.tasks[a.task].op.Load?
  {
  }

  lemma ReturnsWhatItRead(s: State, a: Action)
    requires !a.Begin? && a.task < |s.tasks| && !s.tasks[a.task].phase.Returned?
             && Step(s, a).tasks[a.task].phase.Returned?
    requires s.eager && NothingLate(s.tasks[a.task]) && s.tasks[a.task].op.Load?
    ensures var t, u := s.tasks[a.task], Step(s, a);
            && Current(s, t) && ReadValue(t) == Some(u.tasks[a.task].phase.result)
            && u.stored == s.stored && u.writes == s.writes && u.tasks[a.task].writesSeen == t.writesSeen
  {
  }

  // ----- Late effects -----

  const OLD: Credentials := Credentials("old", "secret")
  const NEW: Credentials := Credentials("new", "secret")

  /** A save whose write is under way, a newer save that failed, and a load that has read. */
  function StaleState(): State {
    State(false, 2, {1}, [0],
          [Task(Save(NEW), 1, Writing(Some(Cipher(NEW, 0)), false), 0), Task(Save(NEW), 2, Done(Broken), 0),
           Task(Load, 2, Decrypting(Cipher(OLD, 0), false), 0)],
          Some(Cipher(OLD, 0)), 0)
  }

  const START: State := State(false, 0, {}, [], [], Some(Cipher(OLD, 0)), 0)

  /** The first save, from its beginning to its repository call. */
  function WithWrite(phase: Phase, tail: seq<nat>): State {
    State(false, 1, {1}, tail, [Task(Save(NEW), 1, phase, 0)], Some(Cipher(OLD, 0)), 0)
  }

  /** The newer save beside it. */
  function WithFailing(phase: Phase, pending: set<nat>): State {
    State(false, 2, pending, [0], [Task(Save(NEW), 1, Writing(Some(Cipher(NEW, 0)), false), 0),
      Task(Save(NEW), 2, phase, 0)],
          Some(Cipher(OLD, 0)), 0)
  }

  /** The load beside both. */
  function WithLoad(phase: Phase): State {
    var s := WithFailing(Done(Broken), {1});
    s.(tasks := s.tasks + [Task(Load, 2, phase, 0)])
  }

  predicate Same(s: State, t: State) {
    && s.eager == t.eager && s.generation == t.generation && s.pending == t.pending && s.writeTail == t.writeTail
    && s.tasks == t.tasks && s.stored == t.stored && s.writes == t.writes
  }

  /** A script that begins with a, whose step leads to t. */
  lemma Peel(s: State, a: Action, t: State, rest: seq<Action>) returns (script: seq<Action>)
    requires Same(Step(s, a), t)
    ensures Run(s, script) == Run(t, rest)
  {
    hide Step;
    script := [a] + rest;
    assert script[1..] == rest;
  }

  lemma FirstSave(rest: seq<Action>) returns (script: seq<Action>)
    ensures Run(START, script) == Run(WithWrite(Writing(Some(Cipher(NEW, 0)), false), [0]), rest)
  {
    var cipher := Some(Cipher(NEW, 0));
    script := Peel(WithWrite(Queued(cipher), [0]), StartWrite(0), WithWrite(Writing(cipher, false), [0]), rest);
    script := Peel(WithWrite(Encrypting, []), Encrypted(0, true, 0), WithWrite(Queued(cipher), [0]), script);
    script := Peel(WithWrite(Checking, []), Available(0, true), WithWrite(Encrypting, []), script);
    script := Peel(START, Begin(Save(NEW)), WithWrite(Checking, []), script);
  }

  lemma FailedSave(rest: seq<Action>) returns (script: seq<Action>)
    ensures Run(WithWrite(Writing(Some(Cipher(NEW, 0)), false), [0]), script)
            == Run(WithFailing(Done(Broken), {1}), rest)
  {
    script := Peel(WithFailing(Finishing(Broken), {1, 2}), Finish(1), WithFailing(Done(Broken), {1}), rest);
    script := Peel(WithFailing(Checking, {1, 2}), Available(1, false), WithFailing(Finishing(Broken), {1, 2}), script);
    script := Peel(WithWrite(Writing(Some(Cipher(NEW, 0)), false), [0]), Begin(Save(NEW)),
      WithFailing(Checking, {1, 2}), script);
  }

  lemma ReadOld() returns (script: seq<Action>)
    ensures Run(WithFailing(Done(Broken), {1}), script) == StaleState()
  {
    var read := Cipher(OLD, 0);
    script := Peel(WithLoad(Reading(Some(Some(read)))), Complete(2, true), WithLoad(Decrypting(read, false)), []);
    script := Peel(WithLoad(Reading(None)), Land(2), WithLoad(Reading(Some(Some(read)))), script);
    script := Peel(WithLoad(Checking), Available(2, true), WithLoad(Reading(None)), script);
    script := Peel(WithFailing(Done(Broken), {1}), Begin(Load), WithLoad(Checking), script);
  }

  lemma StaleStateIsReached() returns (script: seq<Action>)
    ensures Initial(START) && Run(START, script) == StaleState()
  {
    script := ReadOld();
    script := FailedSave(script);
    script := FirstSave(script);
  }

  /** Late effects break the promise: the old write lands after the read, and the load still returns what it read. */
  lemma LateEffectsMakeLoadsStale()
    ensures var t := Step(Step(StaleState(), Land(0)), Decrypted(2, true, false));
            t.tasks[2].phase == Returned(Some(OLD)) && Plain(t.stored) == Some(NEW)
  {
    var s := Step(StaleState(), Land(0));
    assert s.tasks[2] == StaleState().tasks[2];
  }
}
