/** The latest mutation wins, re-encryption preserves what is stored, and a deleted credential does not return. */
module CredentialSafety {
  import opened Basics
  import opened CredentialProtocol

  // ----- One task changes, and neither the queue nor storage does -----

  /** A phase a task may take without touching the queue: its guards and its promise are those of TaskFits. */
  predicate MayBecome(s: State, t: Task, phase: Phase) {
    && !IsWriting(t) && !phase.Queued? && !phase.Writing? && PhaseFits(t.(phase := phase))
    && (IsMutation(t) ==> !t.phase.Done? && !phase.Done?)
    && (HasRead(t.(phase := phase)) ==> t.generation !in s.pending)
    && phase != Finishing(Success) && phase != Done(Success)
  }

  lemma PutKeeps(s: State, i: nat, phase: Phase)
    requires Invariant(s) && i < |s.tasks| && MayBecome(s, s.tasks[i], phase)
    ensures Invariant(Put(s, i, phase))
  {
    var t := Put(s, i, phase);
    assert forall j | 0 <= j < |s.tasks| && j != i :: t.tasks[j] == s.tasks[j];
  }

  lemma FailKeeps(s: State, i: nat)
    requires Invariant(s) && i < |s.tasks| && !IsWriting(s.tasks[i]) && !s.tasks[i].phase.Done?
             && !s.tasks[i].phase.Finishing?
    ensures Invariant(Fail(s, i))
  {
    hide Invariant;
    var t := s.tasks[i];
    PutKeeps(s, i, if t.op.Load? then Done(if Readable(s, t) then Broken else Superseded)
                   else Finishing(if Current(s, t) then Broken else Superseded));
  }

  // ----- Storage changes -----

  lemma OneEach(s: State, i: nat, j: nat)
    requires Ordered(s) && i < |s.tasks| && j < |s.tasks| && IsMutation(s.tasks[i]) && IsMutation(s.tasks[j])
    requires s.tasks[i].generation == s.tasks[j].generation
    ensures i == j
  {
  }

  lemma InOrder(s: State, i: nat, j: nat)
    requires Ordered(s) && i < |s.tasks| && j < |s.tasks| && IsMutation(s.tasks[i]) && IsMutation(s.tasks[j])
    requires s.tasks[j].generation <= s.tasks[i].generation
    ensures j <= i
  {
  }

  /** Only one mutation has each generation, and the newest is the last in the queue. */
  lemma NewestIsLast(s: State, i: nat)
    requires TasksFit(s) && Ordered(s) && TailFits(s)
    requires i < |s.tasks| && IsMutation(s.tasks[i]) && Current(s, s.tasks[i]) && s.writeTail != []
             && s.writeTail[0] == i
    ensures s.writeTail == [i]
    ensures forall j | 0 <= j < |s.tasks| && IsMutation(s.tasks[j]) && Current(s, s.tasks[j]) :: j == i
  {
    if |s.writeTail| > 1 {
      var j := s.writeTail[1];
      assert s.writeTail[0] < s.writeTail[1] && IsWriting(s.tasks[j]);
      assert TaskFits(s, s.tasks[j]) && IsMutation(s.tasks[j]);
      InOrder(s, i, j);
    }
    forall j | 0 <= j < |s.tasks| && IsMutation(s.tasks[j]) && Current(s, s.tasks[j]) ensures j == i {
      OneEach(s, i, j);
    }
  }

  lemma WriterIsFirst(s: State, i: nat)
    requires TailFits(s) && i < |s.tasks| && s.tasks[i].phase.Writing?
    ensures s.writeTail != [] && s.writeTail[0] == i
  {
    assert i in s.writeTail;
  }

  /** A write in the queue takes effect: it is the newest mutation's, or the newest has not succeeded yet. */
  lemma WrittenKeeps(s: State, i: nat, value: Option<Cipher>)
    requires Invariant(s) && i < |s.tasks| && IsWriting(s.tasks[i]) && Fits(s.tasks[i].op, value)
    requires s.writeTail != [] && s.writeTail[0] == i
    ensures Invariant(Written(s, i, value))
  {
    var t := Written(s, i, value);
    assert forall j | 0 <= j < |s.tasks| && j != i :: t.tasks[j] == s.tasks[j];
    assert TaskFits(s, s.tasks[i]) && IsMutation(s.tasks[i]);
    assert TasksFit(t) && Ordered(t) && TailFits(t);
    forall j | 0 <= j < |t.tasks| && IsMutation(t.tasks[j]) && Current(t, t.tasks[j])
      ensures !Succeeded(t.tasks[j]) && (t.tasks[j].phase.Writing? && t.tasks[j].phase.landed ==>
                Fits(t.tasks[j].op, t.stored))
    {
      if j != i && s.tasks[j].phase.Writing? { WriterIsFirst(s, j); }
    }
  }

  lemma CallKeeps(s: State, i: nat, value: Option<Cipher>)
    requires Invariant(s) && i < |s.tasks| && s.tasks[i].phase == Queued(value) && s.writeTail != []
             && s.writeTail[0] == i
    ensures Invariant(Put(s, i, Writing(value, false)))
  {
    var t := Put(s, i, Writing(value, false));
    assert forall j | 0 <= j < |s.tasks| && j != i :: t.tasks[j] == s.tasks[j];
    assert TaskFits(s, s.tasks[i]);
  }

  /** The plaintext in storage. */
  function Plain(stored: Option<Cipher>): Option<Credentials> {
    if stored.Some? then Some(stored.value.plain) else None
  }

  /** Compare and swap with a value of the same plaintext changes no plaintext, whoever wrote it. */
  lemma ReplacedKeeps(s: State, i: nat, read: Cipher, replacement: Cipher)
    requires Invariant(s) && i < |s.tasks| && replacement.plain == read.plain && HasRead(s.tasks[i])
    ensures Invariant(Replaced(s, i, read, replacement))
            && Plain(Replaced(s, i, read, replacement).stored) == Plain(s.stored)
  {
    var t := Replaced(s, i, read, replacement);
    assert TaskFits(s, s.tasks[i]);
    PutKeeps(s, i, Replacing(read, replacement, true));
    hide TasksFit, Ordered, TailFits, IsWriting;
    var u := Put(s, i, Replacing(read, replacement, true));
    SamePlain(u, t);
  }

  /** The invariant looks at storage only through its plaintext. */
  lemma SamePlain(s: State, t: State)
    requires Invariant(s) && t == s.(stored := t.stored) && Plain(t.stored) == Plain(s.stored)
    ensures Invariant(t)
  {
    assert TasksFit(t) && Ordered(t) && TailFits(t);
    assert forall op :: Fits(op, t.stored) == Fits(op, s.stored);
  }

  lemma FetchedKeeps(s: State, i: nat)
    requires Invariant(s) && i < |s.tasks| && s.tasks[i].op.Load? && s.tasks[i].generation !in s.pending
             && !IsWriting(s.tasks[i])
    ensures Invariant(Fetched(s, i))
  {
    var t := Fetched(s, i);
    assert forall j | 0 <= j < |s.tasks| && j != i :: t.tasks[j] == s.tasks[j];
    assert TaskFits(s, s.tasks[i]);
  }

  // ----- The queue changes -----

  /** The newest mutation joins the queue, last. */
  lemma EnqueueNewest(s: State, i: nat, value: Option<Cipher>)
    requires Invariant(s) && i < |s.tasks| && IsMutation(s.tasks[i]) && !IsWriting(s.tasks[i])
             && !s.tasks[i].phase.Done?
    requires Fits(s.tasks[i].op, value) && Current(s, s.tasks[i])
    ensures Invariant(Put(s, i, Queued(value)).(writeTail := s.writeTail + [i]))
  {
    var t := Put(s, i, Queued(value)).(writeTail := s.writeTail + [i]);
    assert forall j | 0 <= j < |s.tasks| && j != i :: t.tasks[j] == s.tasks[j];
    assert TaskFits(s, s.tasks[i]);
    NewestOutsideTail(s, i);
    assert TasksFit(t) && Ordered(t);
    assert TailFits(t);
    hide TasksFit, TailFits, PhaseFits;
    forall j | 0 <= j < |t.tasks| && IsMutation(t.tasks[j]) && Current(t, t.tasks[j]) ensures j == i {
      OneEach(s, i, j);
    }
  }

  /** Whatever is queued is older than a current mutation outside the queue. */
  lemma NewestOutsideTail(s: State, i: nat)
    requires TasksFit(s) && Ordered(s) && TailFits(s)
    requires i < |s.tasks| && IsMutation(s.tasks[i]) && Current(s, s.tasks[i]) && !IsWriting(s.tasks[i])
    ensures forall k | 0 <= k < |s.writeTail| :: s.writeTail[k] < i
  {
    forall k | 0 <= k < |s.writeTail| ensures s.writeTail[k] < i {
      var j := s.writeTail[k];
      assert IsWriting(s.tasks[j]) && TaskFits(s, s.tasks[j]) && IsMutation(s.tasks[j]);
      InOrder(s, i, j);
    }
  }

  /** The first in the queue leaves it. With success it must be current, so nothing is left behind it. */
  lemma LeaveKeeps(s: State, i: nat, outcome: Outcome)
    requires Invariant(s) && i < |s.tasks| && IsWriting(s.tasks[i]) && s.writeTail != [] && s.writeTail[0] == i
    requires outcome == Success ==> Current(s, s.tasks[i]) && s.tasks[i].phase.Writing? && s.tasks[i].phase.landed
    ensures Invariant(Put(Dequeue(s), i, Finishing(outcome)))
  {
    var t := Put(Dequeue(s), i, Finishing(outcome));
    assert forall j | 0 <= j < |s.tasks| && j != i :: t.tasks[j] == s.tasks[j];
    assert TaskFits(s, s.tasks[i]) && IsMutation(s.tasks[i]);
    assert TasksFit(t) && Ordered(t);
    LeaveTail(s, i, outcome);
    if outcome == Success { NewestIsLast(s, i); }
    forall j | 0 <= j < |t.tasks| && IsMutation(t.tasks[j]) && Current(t, t.tasks[j])
      ensures Succeeded(t.tasks[j]) ==> t.writeTail == [] && Fits(t.tasks[j].op, t.stored)
      ensures t.tasks[j].phase.Writing? && t.tasks[j].phase.landed ==> Fits(t.tasks[j].op, t.stored)
    {
      if j != i && s.tasks[j].phase.Writing? { WriterIsFirst(s, j); }
    }
  }

  lemma LeaveTail(s: State, i: nat, outcome: Outcome)
    requires TailFits(s) && i < |s.tasks| && s.writeTail != [] && s.writeTail[0] == i
    ensures TailFits(Put(Dequeue(s), i, Finishing(outcome)))
  {
    var t := Put(Dequeue(s), i, Finishing(outcome));
    assert forall j | 0 <= j < |s.tasks| && j != i :: t.tasks[j] == s.tasks[j];
    assert forall k {:trigger t.writeTail[k]} | 0 <= k < |t.writeTail| :: t.writeTail[k] == s.writeTail[k + 1] > i;
    forall j | 0 <= j < |t.tasks| && IsWriting(t.tasks[j]) ensures j in t.writeTail {
      assert j in s.writeTail;
      var k :| 0 <= k < |s.writeTail| && s.writeTail[k] == j;
      assert k > 0 && t.writeTail[k - 1] == j;
    }
  }

  // ----- Tasks begin and finish -----

  /** A new task, of the newest generation when it is a mutation, that is not queued. */
  lemma AppendKeeps(s: State, t: Task, g: nat, pending: set<nat>)
    requires Invariant(s) && !IsWriting(t) && PhaseFits(t) && !Succeeded(t) && t.generation == g && !HasRead(t)
    requires if IsMutation(t) then g == s.generation + 1 && pending == s.pending + {g} && !t.phase.Done?
             else g == s.generation && pending == s.pending
    ensures Invariant(s.(generation := g, pending := pending, tasks := s.tasks + [t]))
  {
    var u := s.(generation := g, pending := pending, tasks := s.tasks + [t]);
    assert forall j | 0 <= j < |s.tasks| :: u.tasks[j] == s.tasks[j] && TaskFits(s, s.tasks[j]);
    assert TasksFit(u) && Ordered(u);
    assert TailFits(u) by {
      assert forall k | 0 <= k < |s.writeTail| :: s.writeTail[k] < |s.tasks|;
    }
  }

  lemma BegunKeeps(s: State, op: Op)
    requires Invariant(s)
    ensures Invariant(Begun(s, op))
  {
    var g := s.generation + 1;
    hide TasksFit, Ordered, TailFits, LatestHolds;
    match op {
      case Load => AppendKeeps(s, Task(Load, s.generation, Checking, 0), s.generation, s.pending);
      case Save(_) => AppendKeeps(s, Task(op, g, Checking, 0), g, s.pending + {g});
      case Delete =>
        hide Invariant;
        AppendKeeps(s, Task(Delete, g, Finishing(Broken), 0), g, s.pending + {g});
        DeleteQueues(s.(generation := g, pending := s.pending + {g},
          tasks := s.tasks + [Task(Delete, g, Finishing(Broken), 0)]), |s.tasks|);
        assert (s.tasks + [Task(Delete, g, Finishing(Broken), 0)])[|s.tasks| := Task(Delete, g, Queued(None), 0)]
            == s.tasks + [Task(Delete, g, Queued(None), 0)];
    }
  }

  lemma DeleteQueues(s: State, i: nat)
    requires Invariant(s) && i < |s.tasks| && s.tasks[i].op.Delete? && s.tasks[i].phase == Finishing(Broken)
             && Current(s, s.tasks[i])
    ensures Invariant(Put(s, i, Queued(None)).(writeTail := s.writeTail + [i]))
  {
    EnqueueNewest(s, i, None);
  }

  lemma FinishedKeeps(s: State, i: nat)
    requires Invariant(s) && i < |s.tasks| && s.tasks[i].phase.Finishing?
    ensures Invariant(Finished(s, i))
  {
    var t := Finished(s, i);
    assert TaskFits(s, s.tasks[i]);
    assert forall j | 0 <= j < |s.tasks| && j != i :: t.tasks[j] == s.tasks[j];
    forall j | 0 <= j < |t.tasks| ensures TaskFits(t, t.tasks[j]) {
      assert TaskFits(s, s.tasks[j]);
      if IsMutation(s.tasks[j]) && j < i { assert s.tasks[j].generation < s.tasks[i].generation; }
      if IsMutation(s.tasks[j]) && i < j { assert s.tasks[i].generation < s.tasks[j].generation; }
    }
    assert TailFits(t);
  }

  // ----- Every step -----

  lemma CheckedKeeps(s: State, i: nat, ok: bool)
    requires Invariant(s) && i < |s.tasks| && s.tasks[i].phase.Checking?
    ensures Invariant(Checked(s, i, ok))
  {
    TaskIs(s, i);
    hide Invariant;
    var t := s.tasks[i];
    if t.op.Save? && ok && Current(s, t) {
      PutKeeps(s, i, Encrypting);
    } else if t.op.Load? && ok && Readable(s, t) {
      FetchedKeeps(s, i);
      PutKeeps(s, i, Reading(None));
    } else {
      FailKeeps(s, i);
    }
  }

  lemma TaskIs(s: State, i: nat)
    requires Invariant(s) && i < |s.tasks|
    ensures TaskFits(s, s.tasks[i])
  {
  }

  lemma EncryptedKeeps(s: State, i: nat, ok: bool, nonce: nat)
    requires Invariant(s) && i < |s.tasks|
    ensures Invariant(EncryptedStep(s, i, ok, nonce))
  {
    TaskIs(s, i);
    hide Invariant;
    var t := s.tasks[i];
    if t.phase.Encrypting? && t.op.Save? {
      if ok && Current(s, t) { EnqueueNewest(s, i, Some(Cipher(t.op.credentials, nonce))); } else { FailKeeps(s, i); }
    } else if t.phase.Reencrypting? {
      if ok && Readable(s, t) {
        var replacement := Cipher(t.phase.read.plain, nonce);
        ReplacedKeeps(s, i, t.phase.read, replacement);
        PutKeeps(s, i, Replacing(t.phase.read, replacement, false));
      } else {
        FailKeeps(s, i);
      }
    }
  }

  lemma StartedKeeps(s: State, i: nat)
    requires Invariant(s) && i < |s.tasks|
    ensures Invariant(Started(s, i))
  {
    TaskIs(s, i);
    hide Invariant;
    var t := s.tasks[i];
    if t.phase.Queued? && s.writeTail != [] && s.writeTail[0] == i {
      if !Current(s, t) {
        LeaveKeeps(s, i, Superseded);
      } else {
        WrittenKeeps(s, i, t.phase.value);
        CallKeeps(s, i, t.phase.value);
      }
    }
  }

  lemma LandedKeeps(s: State, i: nat)
    requires Invariant(s) && i < |s.tasks|
    ensures Invariant(Landed(s, i))
  {
    TaskIs(s, i);
    match s.tasks[i].phase {
      case Writing(value, false) =>
        WriterIsFirst(s, i);
        hide Invariant;
        WrittenKeeps(s, i, value);
      case Reading(None) => FetchedKeeps(s, i);
      case Replacing(read, replacement, false) => ReplacedKeeps(s, i, read, replacement);
      case _ =>
    }
  }

  lemma CompletedKeeps(s: State, i: nat, ok: bool)
    requires Invariant(s) && i < |s.tasks|
    ensures Invariant(Completed(s, i, ok))
  {
    TaskIs(s, i);
    var t := s.tasks[i];
    match t.phase {
      case Writing(_, landed) =>
        WriterIsFirst(s, i);
        hide Invariant;
        if !ok || landed { LeaveKeeps(s, i, if !ok then Broken else if Current(s, t) then Success else Superseded); }
      case Reading(found) =>
        hide Invariant;
        if !ok || (found.Some? && !Readable(s, t)) {
          FailKeeps(s, i);
        } else if found.Some? {
          PutKeeps(s, i, if found.value.None? then Returned(None) else Decrypting(found.value.value, false));
        }
      case Replacing(read, _, landed) =>
        hide Invariant;
        if !ok || (landed && !Readable(s, t)) {
          FailKeeps(s, i);
        } else if landed {
          PutKeeps(s, i, Returned(Some(read.plain)));
        }
      case _ =>
    }
  }

  lemma DecryptedKeeps(s: State, i: nat, ok: bool, rotate: bool)
    requires Invariant(s) && i < |s.tasks|
    ensures Invariant(DecryptedStep(s, i, ok, rotate))
  {
    TaskIs(s, i);
    hide Invariant;
    var t := s.tasks[i];
    if t.phase.Decrypting? {
      if !ok || !Readable(s, t) {
        FailKeeps(s, i);
      } else {
        PutKeeps(s, i, if t.phase.again then Reencrypting(t.phase.read)
                       else if rotate then Decrypting(t.phase.read, true) else Returned(Some(t.phase.read.plain)));
      }
    }
  }

  lemma StepKeeps(s: State, a: Action)
    requires Invariant(s)
    ensures Invariant(Step(s, a))
  {
    hide Invariant;
    if a.Begin? {
      BegunKeeps(s, a.op);
    } else if a.task < |s.tasks| {
      var i := a.task;
      match a {
        case Available(_, ok) => if s.tasks[i].phase.Checking? { CheckedKeeps(s, i, ok); }
        case Encrypted(_, ok, nonce) => EncryptedKeeps(s, i, ok, nonce);
        case StartWrite(_) => StartedKeeps(s, i);
        case Land(_) => LandedKeeps(s, i);
        case Complete(_, ok) => CompletedKeeps(s, i, ok);
        case Decrypted(_, ok, rotate) => DecryptedKeeps(s, i, ok, rotate);
        case Finish(_) => if s.tasks[i].phase.Finishing? { FinishedKeeps(s, i); }
      }
    }
  }

  lemma {:induction false} RunKeeps(s: State, actions: seq<Action>)
    requires Invariant(s)
    ensures Invariant(Run(s, actions))
    decreases |actions|
  {
    hide Invariant, Step;
    if actions != [] {
      StepKeeps(s, actions[0]);
      RunKeeps(Step(s, actions[0]), actions[1..]);
    }
  }

  lemma InitialHolds(s: State)
    requires Initial(s)
    ensures Invariant(s)
  {
  }

  // ----- What the protocol promises -----

  /**
   * The latest mutation wins: when the newest save or delete has succeeded, storage holds its value (or nothing),
   * whatever older saves, deletes and re-encrypting loads are in flight, and even when repository calls take effect as
   * late as they can.
   */
  lemma LatestMutationWins(s: State, actions: seq<Action>, i: nat)
    requires Initial(s) && i < |Run(s, actions).tasks|
    requires var t := Run(s, actions); IsMutation(t.tasks[i]) && Current(t, t.tasks[i]) && Succeeded(t.tasks[i])
    ensures var t := Run(s, actions);
            && (forall j | 0 <= j < |t.tasks| && IsMutation(t.tasks[j]) ::
               t.tasks[j].generation <= t.tasks[i].generation)
            && match t.tasks[i].op
               case Save(credentials) => Plain(t.stored) == Some(credentials)
               case Delete => t.stored == None
               case Load => false
  {
    InitialHolds(s);
    RunKeeps(s, actions);
    hide Step, Run;
    var t := Run(s, actions);
    assert forall j | 0 <= j < |t.tasks| :: TaskFits(t, t.tasks[j]);
  }

  predicate BeginsMutation(a: Action) {
    a.Begin? && !a.op.Load?
  }

  /** The newest mutation has succeeded. */
  predicate Settled(s: State, i: nat) {
    i < |s.tasks| && IsMutation(s.tasks[i]) && Current(s, s.tasks[i]) && Succeeded(s.tasks[i])
  }

  /** A step changes no task but its own, and the generation only when a mutation begins. */
  lemma OthersStay(s: State, a: Action, i: nat)
    requires i < |s.tasks|
    ensures i < |Step(s, a).tasks| && ((a.Begin? || a.task != i) ==> Step(s, a).tasks[i] == s.tasks[i])
    ensures !BeginsMutation(a) ==> Step(s, a).generation == s.generation
  {
  }

  lemma StaysSettled(s: State, i: nat, a: Action)
    requires Settled(s, i) && !BeginsMutation(a)
    ensures Settled(Step(s, a), i) && Step(s, a).tasks[i].op == s.tasks[i].op
  {
    OthersStay(s, a, i);
    if a.Begin? || a.task != i { hide Step; }
  }

  lemma {:induction false} RunStaysSettled(s: State, i: nat, actions: seq<Action>)
    requires Settled(s, i) && forall a | a in actions :: !BeginsMutation(a)
    ensures Settled(Run(s, actions), i) && Run(s, actions).tasks[i].op == s.tasks[i].op
    decreases |actions|
  {
    hide Step, Settled;
    SettledIs(s, i);
    if actions != [] {
      StaysSettled(s, i, actions[0]);
      RunStaysSettled(Step(s, actions[0]), i, actions[1..]);
    }
  }

  lemma SettledIs(s: State, i: nat)
    requires Settled(s, i)
    ensures i < |s.tasks|
  {
  }

  /**
   * Until a newer mutation begins, the stored plaintext stays what the last successful one wrote:
   * nothing comes back.
   */
  lemma NothingComesBack(s: State, before: seq<Action>, i: nat, after: seq<Action>)
    requires Initial(s) && Settled(Run(s, before), i) && forall a | a in after :: !BeginsMutation(a)
    ensures Plain(Run(Run(s, before), after).stored) == Plain(Run(s, before).stored)
  {
    InitialHolds(s);
    RunKeeps(s, before);
    RunKeeps(Run(s, before), after);
    RunStaysSettled(Run(s, before), i, after);
    SettledFits(Run(s, before), i);
    SettledFits(Run(Run(s, before), after), i);
  }

  lemma SettledFits(s: State, i: nat)
    requires Invariant(s) && Settled(s, i)
    ensures Fits(s.tasks[i].op, s.stored)
  {
  }
}
