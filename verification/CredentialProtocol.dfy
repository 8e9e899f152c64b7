/**
 * The protocol of apps/desktop/src/main/translation/provider-credential-store.ts. Saves, deletes and loads are tasks
 * that may interleave at every await; each step below runs from one await to the next. Repository calls take effect at
 * some moment before they complete; when eager, at the call, as those of packages/storage/src/sqlite-storage.ts do.
 */
module CredentialProtocol {
  import opened Basics

  datatype Credentials = Credentials(appId: string, secretKey: string)

  /** An encrypted value: it decrypts to plain. Encrypting twice may or may not give the same value. */
  datatype Cipher = Cipher(plain: Credentials, nonce: nat)

  datatype Op = Save(credentials: Credentials) | Delete | Load

  datatype Outcome = Success | Superseded | Broken

  /** What a task waits for. found and landed say whether a repository call took effect yet. */
  datatype Phase =
    | Checking
    | Encrypting
    | Queued(value: Option<Cipher>)
    | Writing(value: Option<Cipher>, landed: bool)
    | Finishing(outcome: Outcome)
    | Reading(found: Option<Option<Cipher>>)
    | Decrypting(read: Cipher, again: bool)
    | Reencrypting(read: Cipher)
    | Replacing(read: Cipher, replacement: Cipher, landed: bool)
    | Returned(result: Option<Credentials>)
    | Done(outcome: Outcome)

  /** writesSeen: how many mutations had touched storage when this load read it. */
  datatype Task = Task(op: Op, generation: nat, phase: Phase, writesSeen: nat)

  /** writeTail holds the queued writes, the running one first; writes counts effects of saves and deletes. */
  datatype State = State(
    eager: bool, generation: nat, pending: set<nat>, writeTail: seq<nat>, tasks: seq<Task>, stored: Option<Cipher>,
      writes: nat)

  datatype Action =
    | Begin(op: Op)
    | Available(task: nat, ok: bool)
    | Encrypted(task: nat, ok: bool, nonce: nat)
    | StartWrite(task: nat)
    | Land(task: nat)
    | Complete(task: nat, ok: bool)
    | Decrypted(task: nat, ok: bool, rotate: bool)
    | Finish(task: nat)

  // ----- The guards -----

  predicate Current(s: State, t: Task) {
    t.generation == s.generation
  }

  predicate Readable(s: State, t: Task) {
    Current(s, t) && t.generation !in s.pending
  }

  // ----- One step -----

  function Put(s: State, i: nat, phase: Phase): State
    requires i < |s.tasks|
  {
    s.(tasks := s.tasks[i := s.tasks[i].(phase := phase)])
  }

  /** An exception: a load rejects at once, a mutation passes through its finally block. */
  function Fail(s: State, i: nat): State
    requires i < |s.tasks|
  {
    var t := s.tasks[i];
    if t.op.Load? then Put(s, i, Done(if Readable(s, t) then Broken else Superseded))
    else Put(s, i, Finishing(if Current(s, t) then Broken else Superseded))
  }

  function Dequeue(s: State): State
    requires s.writeTail != []
  {
    s.(writeTail := s.writeTail[1..])
  }

  /** setEncrypted or delete takes effect. */
  function Written(s: State, i: nat, value: Option<Cipher>): State
    requires i < |s.tasks|
  {
    Put(s, i, Writing(value, true)).(stored := value, writes := s.writes + 1)
  }

  /** replaceEncryptedIfCurrent takes effect: compare and swap. */
  function Replaced(s: State, i: nat, read: Cipher, replacement: Cipher): State
    requires i < |s.tasks|
  {
    Put(s, i, Replacing(read, replacement, true)).(stored := if s.stored == Some(read) then Some(replacement)
      else s.stored)
  }

  /** getEncrypted takes effect. */
  function Fetched(s: State, i: nat): State
    requires i < |s.tasks|
  {
    s.(tasks := s.tasks[i := s.tasks[i].(phase := Reading(Some(s.stored)), writesSeen := s.writes)])
  }

  function Begun(s: State, op: Op): State {
    var i, g := |s.tasks|, s.generation + 1;
    match op
    case Load => s.(tasks := s.tasks + [Task(Load, s.generation, Checking, 0)])
    case Save(_) => s.(generation := g, pending := s.pending + {g}, tasks := s.tasks + [Task(op, g, Checking, 0)])
    case Delete =>
      s.(generation := g, pending := s.pending + {g}, tasks := s.tasks + [Task(op, g, Queued(None), 0)],
        writeTail := s.writeTail + [i])
  }

  function Checked(s: State, i: nat, ok: bool): State
    requires i < |s.tasks| && s.tasks[i].phase.Checking?
  {
    var t := s.tasks[i];
    if t.op.Save? && ok && Current(s, t) then Put(s, i, Encrypting)
    else if t.op.Load? && ok && Readable(s, t) then if s.eager then Fetched(s, i) else Put(s, i, Reading(None))
    else Fail(s, i)
  }

  function EncryptedStep(s: State, i: nat, ok: bool, nonce: nat): State
    requires i < |s.tasks|
  {
    var t := s.tasks[i];
    if t.phase.Encrypting? && t.op.Save? then
      if ok && Current(s, t) then
        Put(s, i, Queued(Some(Cipher(t.op.credentials, nonce)))).(writeTail := s.writeTail + [i])
      else Fail(s, i)
    else if t.phase.Reencrypting? then
      if !ok || !Readable(s, t) then Fail(s, i)
      else
        var replacement := Cipher(t.phase.read.plain, nonce);
        if s.eager then Replaced(s, i, t.phase.read, replacement)
          else Put(s, i, Replacing(t.phase.read, replacement, false))
    else s
  }

  /** The write at the head of the tail runs its first guard and calls the repository. */
  function Started(s: State, i: nat): State
    requires i < |s.tasks|
  {
    var t := s.tasks[i];
    if !t.phase.Queued? || s.writeTail == [] || s.writeTail[0] != i then s
    else if !Current(s, t) then Put(Dequeue(s), i, Finishing(Superseded))
    else if s.eager then Written(s, i, t.phase.value)
    else Put(s, i, Writing(t.phase.value, false))
  }

  function Landed(s: State, i: nat): State
    requires i < |s.tasks|
  {
    match s.tasks[i].phase
    case Writing(value, false) => Written(s, i, value)
    case Reading(None) => Fetched(s, i)
    case Replacing(read, replacement, false) => Replaced(s, i, read, replacement)
    case _ => s
  }

  /** A repository call completes: successfully only after its effect, with an error before or after it. */
  function Completed(s: State, i: nat, ok: bool): State
    requires i < |s.tasks|
  {
    var t := s.tasks[i];
    match t.phase
    case Writing(_, landed) =>
      if (ok && !landed) || s.writeTail == [] then s
      else Put(Dequeue(s), i, Finishing(if !ok then Broken else if Current(s, t) then Success else Superseded))
    case Reading(found) =>
      if ok && found.None? then s
      else if !ok || !Readable(s, t) then Fail(s, i)
      else if found.value.None? then Put(s, i, Returned(None))
      else Put(s, i, Decrypting(found.value.value, false))
    case Replacing(read, _, landed) =>
      if ok && !landed then s
      else if !ok || !Readable(s, t) then Fail(s, i)
      else Put(s, i, Returned(Some(read.plain)))
    case _ => s
  }

  /** Decrypted and parsed. After a key rotation the value is decrypted once more and then encrypted again. */
  function DecryptedStep(s: State, i: nat, ok: bool, rotate: bool): State
    requires i < |s.tasks|
  {
    var t := s.tasks[i];
    if !t.phase.Decrypting? then s
    else if !ok || !Readable(s, t) then Fail(s, i)
    else if t.phase.again then Put(s, i, Reencrypting(t.phase.read))
    else if rotate then Put(s, i, Decrypting(t.phase.read, true))
    else Put(s, i, Returned(Some(t.phase.read.plain)))
  }

  /** The finally block; a save that failed first looks whether it was superseded in the meantime. */
  function Finished(s: State, i: nat): State
    requires i < |s.tasks|
  {
    var t := s.tasks[i];
    if !t.phase.Finishing? then s
    else
      var outcome := if t.op.Save? && t.phase.outcome != Success && !Current(s, t) then Superseded else t.phase.outcome;
      Put(s, i, Done(outcome)).(pending := s.pending - {t.generation})
  }

  function Step(s: State, a: Action): State {
    if a.Begin? then Begun(s, a.op)
    else if a.task >= |s.tasks| then s
    else
      match a
      case Available(i, ok) => if s.tasks[i].phase.Checking? then Checked(s, i, ok) else s
      case Encrypted(i, ok, nonce) => EncryptedStep(s, i, ok, nonce)
      case StartWrite(i) => Started(s, i)
      case Land(i) => Landed(s, i)
      case Complete(i, ok) => Completed(s, i, ok)
      case Decrypted(i, ok, rotate) => DecryptedStep(s, i, ok, rotate)
      case Finish(i) => Finished(s, i)
  }

  function Run(s: State, actions: seq<Action>): State
    decreases |actions|
  {
    if actions == [] then s else Run(Step(s, actions[0]), actions[1..])
  }

  predicate Initial(s: State) {
    s == State(s.eager, 0, {}, [], [], s.stored, 0)
  }

  // ----- The invariant -----

  predicate IsMutation(t: Task) {
    !t.op.Load?
  }

  /** The value a mutation writes. */
  predicate Fits(op: Op, value: Option<Cipher>) {
    match op
    case Save(credentials) => value.Some? && value.value.plain == credentials
    case Delete => value.None?
    case Load => false
  }

  predicate PhaseFits(t: Task) {
    match t.phase
    case Checking => !t.op.Delete?
    case Encrypting => t.op.Save?
    case Queued(value) => Fits(t.op, value)
    case Writing(value, _) => Fits(t.op, value)
    case Finishing(_) => IsMutation(t)
    case Done(_) => true
    case Replacing(read, replacement, _) => t.op.Load? && replacement.plain == read.plain
    case _ => t.op.Load?
  }

  /** A load that has called the repository. */
  predicate HasRead(t: Task) {
    t.op.Load? && !t.phase.Checking? && !t.phase.Done?
  }

  /** Each task alone: its generation was given out, and is pending exactly while its mutation is not done. */
  predicate TaskFits(s: State, t: Task) {
    && t.generation <= s.generation && PhaseFits(t)
    && (IsMutation(t) ==> (t.generation in s.pending <==> !t.phase.Done?))
    && (HasRead(t) ==> t.generation !in s.pending)
  }

  predicate TasksFit(s: State) {
    && (forall i | 0 <= i < |s.tasks| :: TaskFits(s, s.tasks[i]))
    && forall g | g in s.pending :: g <= s.generation
  }

  /** Mutations got growing generations. */
  predicate Ordered(s: State) {
    forall i, j | 0 <= i < j < |s.tasks| :: IsMutation(s.tasks[i]) && IsMutation(s.tasks[j]) ==>
      s.tasks[i].generation < s.tasks[j].generation
  }

  predicate IsWriting(t: Task) {
    t.phase.Queued? || t.phase.Writing?
  }

  /** The tail holds exactly the mutations that queue or write, oldest first; only the first can be writing. */
  predicate TailFits(s: State) {
    && (forall k | 0 <= k < |s.writeTail| :: s.writeTail[k] < |s.tasks| && IsWriting(s.tasks[s.writeTail[k]])
                                              && (k > 0 ==> s.tasks[s.writeTail[k]].phase.Queued?))
    && (forall k, l | 0 <= k < l < |s.writeTail| :: s.writeTail[k] < s.writeTail[l])
    && forall i | 0 <= i < |s.tasks| :: IsWriting(s.tasks[i]) ==> i in s.writeTail
  }

  predicate Succeeded(t: Task) {
    t.phase == Finishing(Success) || t.phase == Done(Success)
  }

  /**
   * What the newest mutation wrote is what is stored, as soon as it took effect; once it succeeded no
   * write is queued.
   */
  predicate LatestHolds(s: State) {
    forall i | 0 <= i < |s.tasks| :: IsMutation(s.tasks[i]) && Current(s, s.tasks[i]) ==>
      && (Succeeded(s.tasks[i]) ==> s.writeTail == [] && Fits(s.tasks[i].op, s.stored))
      && (s.tasks[i].phase.Writing? && s.tasks[i].phase.landed ==> Fits(s.tasks[i].op, s.stored))
  }

  predicate Invariant(s: State) {
    TasksFit(s) && Ordered(s) && TailFits(s) && LatestHolds(s)
  }
}
