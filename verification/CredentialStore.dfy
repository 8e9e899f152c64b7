/**
 * ProviderCredentialStore with its fields updated in place, over the one row of SqliteSecretsRepository it uses. A
 * method runs from one await to the next and is exactly one step of CredentialProtocol, so that whatever the methods
 * and their order, the store stays sound: what the newest mutation wrote is stored, and what a load has read too.
 */
module CredentialStore {
  import opened Basics
  import opened CredentialProtocol
  import opened CredentialSafety
  import opened CredentialReads

  /** The invariant of every run, and with calls that take effect at once, of the loads too. */
  predicate IsSound(s: State) {
    Invariant(s) && (s.eager ==> EagerInvariant(s))
  }

  lemma StepIsSound(s: State, a: Action)
    requires IsSound(s)
    ensures IsSound(Step(s, a))
  {
    hide Invariant, EagerInvariant, Step;
    StepKeeps(s, a);
    EagerStays(s, a);
    if s.eager { EagerKeeps(s, a); }
  }

  lemma InitialIsSound(s: State)
    requires Initial(s)
    ensures IsSound(s)
  {
    InitialHolds(s);
    if s.eager { InitialReads(s); }
  }

  lemma PhaseIs(s: State, i: nat)
    requires IsSound(s) && i < |s.tasks|
    ensures PhaseFits(s.tasks[i]) && (s.tasks[i].phase.Writing? ==> s.writeTail != [])
  {
    TaskIs(s, i);
    hide TasksFit, Ordered, LatestHolds, IsWriting;
    if s.tasks[i].phase.Writing? { WriterIsFirst(s, i); }
  }

  /** A mutation that finishes well and is still the newest leaves its own value stored and nothing queued. */
  lemma NewestHolds(s: State, i: nat)
    requires IsSound(s) && i < |s.tasks| && s.tasks[i].phase.Finishing?
    ensures var t := Step(s, Finish(i));
            t.tasks[i].phase == Done(Success) && Current(t, t.tasks[i]) ==>
              t.writeTail == [] && Fits(t.tasks[i].op, t.stored)
  {
    TaskIs(s, i);
    hide TasksFit, Ordered, TailFits, EagerInvariant, Fits;
  }

  lemma LoadReturns(s: State, a: Action)
    requires IsSound(s) && !a.Begin? && a.task < |s.tasks| && !s.tasks[a.task].phase.Returned?
    ensures var t := Step(s, a);
            a.task < |t.tasks| && (s.eager && t.tasks[a.task].phase.Returned? ==>
              t.tasks[a.task].phase.result == Plain(t.stored))
  {
    hide Invariant, EagerInvariant, Step;
    OthersStay(s, a, a.task);
    if s.eager { ReturnIsStored(s, a); }
  }

  /** Encryption stores nothing of its own: a load puts the same plaintext back. */
  lemma EncryptionKeepsPlain(s: State, i: nat, ok: bool, nonce: nat)
    ensures Plain(Step(s, Encrypted(i, ok, nonce)).stored) == Plain(s.stored)
  {
  }

  /** The row of the secrets table under the credential key. */
  class SecretsRepository {
    var row: Option<Cipher>

    constructor (row: Option<Cipher>)
      ensures this.row == row
    {
      this.row := row;
    }

    method SetEncrypted(value: Cipher)
      modifies this
      ensures row == Some(value)
    {
      row := Some(value);
    }

    method Delete() returns (deleted: bool)
      modifies this
      ensures row == None && deleted == old(row).Some?
    {
      deleted := row.Some?;
      row := None;
    }

    /** UPDATE … WHERE encrypted_value = expected: nothing happens when the row has changed. */
    method ReplaceEncryptedIfCurrent(expected: Cipher, replacement: Cipher) returns (replaced: bool)
      modifies this
      ensures replaced == (old(row) == Some(expected)) && row == if replaced then Some(replacement) else old(row)
    {
      replaced := row == Some(expected);
      if replaced { row := Some(replacement); }
    }
  }

  class ProviderCredentialStore {
    const eager: bool
    const repository: SecretsRepository
    var mutationGeneration: nat
    var pendingMutationGenerations: set<nat>
    var writeTail: seq<nat>
    var tasks: seq<Task>
    var writes: nat

    function View(): State
      reads this, repository
    {
      State(eager, mutationGeneration, pendingMutationGenerations, writeTail, tasks, repository.row, writes)
    }

    predicate Valid()
      reads this, repository
    {
      IsSound(View())
    }

    constructor (eager: bool, repository: SecretsRepository)
      ensures this.repository == repository && Initial(View()) && View().eager == eager && Valid()
    {
      this.eager, this.repository := eager, repository;
      mutationGeneration, pendingMutationGenerations, writeTail, tasks, writes := 0, {}, [], [], 0;
      new;
      InitialIsSound(View());
    }

    predicate RequireCurrentGeneration(generation: nat)
      reads this
    {
      generation == mutationGeneration
    }

    predicate RequireReadableGeneration(generation: nat)
      reads this
    {
      RequireCurrentGeneration(generation) && generation !in pendingMutationGenerations
    }

    method BeginMutation() returns (generation: nat)
      modifies this`mutationGeneration, this`pendingMutationGenerations
      ensures generation == mutationGeneration == old(mutationGeneration) + 1
      ensures pendingMutationGenerations == old(pendingMutationGenerations) + {generation}
    {
      mutationGeneration := mutationGeneration + 1;
      generation := mutationGeneration;
      pendingMutationGenerations := pendingMutationGenerations + {generation};
    }

    method SetPhase(i: nat, phase: Phase)
      requires i < |tasks|
      modifies this`tasks
      ensures View() == Put(old(View()), i, phase)
    {
      tasks := tasks[i := tasks[i].(phase := phase)];
    }

    method Reject(i: nat)
      requires i < |tasks|
      modifies this`tasks
      ensures View() == Fail(old(View()), i)
    {
      var t := tasks[i];
      if t.op.Load? {
        SetPhase(i, Done(if RequireReadableGeneration(t.generation) then Broken else Superseded));
      } else {
        SetPhase(i, Finishing(if RequireCurrentGeneration(t.generation) then Broken else Superseded));
      }
    }

    method Save(credentials: Credentials)
      requires Valid()
      modifies this
      ensures View() == Step(old(View()), Begin(CredentialProtocol.Save(credentials))) && Valid()
    {
      hide IsSound;
      StepIsSound(View(), Begin(CredentialProtocol.Save(credentials)));
      var generation := BeginMutation();
      tasks := tasks + [Task(CredentialProtocol.Save(credentials), generation, Checking, 0)];
    }

    method Load()
      requires Valid()
      modifies this
      ensures View() == Step(old(View()), Begin(CredentialProtocol.Load)) && Valid()
    {
      hide IsSound;
      StepIsSound(View(), Begin(CredentialProtocol.Load));
      tasks := tasks + [Task(CredentialProtocol.Load, mutationGeneration, Checking, 0)];
    }

    method Delete()
      requires Valid()
      modifies this
      ensures View() == Step(old(View()), Begin(CredentialProtocol.Delete)) && Valid()
    {
      hide IsSound;
      StepIsSound(View(), Begin(CredentialProtocol.Delete));
      var generation := BeginMutation();
      writeTail := writeTail + [|tasks|];
      tasks := tasks + [Task(CredentialProtocol.Delete, generation, Queued(None), 0)];
    }

    method Fetch(i: nat)
      requires i < |tasks|
      modifies this`tasks
      ensures View() == Fetched(old(View()), i)
    {
      tasks := tasks[i := tasks[i].(phase := Reading(Some(repository.row)), writesSeen := writes)];
    }

    method Write(i: nat, value: Option<Cipher>)
      requires i < |tasks|
      modifies this`tasks, this`writes, repository
      ensures View() == Written(old(View()), i, value)
    {
      match value {
        case Some(cipher) => repository.SetEncrypted(cipher);
        case None => var _ := repository.Delete();
      }
      writes := writes + 1;
      SetPhase(i, Writing(value, true));
    }

    method Replace(i: nat, read: Cipher, replacement: Cipher)
      requires i < |tasks|
      modifies this`tasks, repository
      ensures View() == Replaced(old(View()), i, read, replacement)
    {
      var _ := repository.ReplaceEncryptedIfCurrent(read, replacement);
      SetPhase(i, Replacing(read, replacement, true));
    }

    /** isAsyncEncryptionAvailable settles. */
    method ResumeChecking(i: nat, ok: bool)
      requires Valid() && i < |tasks| && tasks[i].phase.Checking?
      modifies this`tasks
      ensures View() == Step(old(View()), Available(i, ok)) && Valid()
    {
      hide IsSound;
      StepIsSound(View(), Available(i, ok));
      var t := tasks[i];
      if t.op.Save? && ok && RequireCurrentGeneration(t.generation) {
        SetPhase(i, Encrypting);
      } else if t.op.Load? && ok && RequireReadableGeneration(t.generation) {
        if eager { Fetch(i); } else { SetPhase(i, Reading(None)); }
      } else {
        Reject(i);
      }
    }

    /** encryptStringAsync settles, for a save or for a re-encrypting load. */
    method ResumeEncryption(i: nat, ok: bool, nonce: nat)
      requires Valid() && i < |tasks| && (tasks[i].phase.Encrypting? || tasks[i].phase.Reencrypting?)
      modifies this, repository
      ensures View() == Step(old(View()), Encrypted(i, ok, nonce)) && Valid()
      ensures Plain(repository.row) == Plain(old(repository.row))
    {
      hide IsSound;
      StepIsSound(View(), Encrypted(i, ok, nonce));
      EncryptionKeepsPlain(View(), i, ok, nonce);
      PhaseIs(View(), i);
      var t := tasks[i];
      if t.phase.Encrypting? {
        if !ok || !RequireCurrentGeneration(t.generation) {
          Reject(i);
        } else {
          SetPhase(i, Queued(Some(Cipher(t.op.credentials, nonce))));
          writeTail := writeTail + [i];
        }
      } else if !ok || !RequireReadableGeneration(t.generation) {
        Reject(i);
      } else {
        var replacement := Cipher(t.phase.read.plain, nonce);
        if eager {
          Replace(i, t.phase.read, replacement);
        } else {
          SetPhase(i, Replacing(t.phase.read, replacement, false));
        }
      }
    }

    /** The operation at the head of the write tail runs. */
    method RunQueued(i: nat)
      requires Valid() && i < |tasks| && tasks[i].phase.Queued? && writeTail != [] && writeTail[0] == i
      modifies this, repository
      ensures View() == Step(old(View()), StartWrite(i)) && Valid()
    {
      hide IsSound;
      StepIsSound(View(), StartWrite(i));
      var t := tasks[i];
      if !RequireCurrentGeneration(t.generation) {
        writeTail := writeTail[1..];
        SetPhase(i, Finishing(Superseded));
      } else if eager {
        Write(i, t.phase.value);
      } else {
        SetPhase(i, Writing(t.phase.value, false));
      }
    }

    /** A repository call takes effect after it was made. */
    method TakeEffect(i: nat)
      requires Valid() && i < |tasks|
      modifies this, repository
      ensures View() == Step(old(View()), Land(i)) && Valid()
    {
      hide IsSound;
      StepIsSound(View(), Land(i));
      match tasks[i].phase {
        case Writing(value, false) => Write(i, value);
        case Reading(None) => Fetch(i);
        case Replacing(read, replacement, false) => Replace(i, read, replacement);
        case _ =>
      }
    }

    /** A repository call settles, with success only after its effect. */
    method ResumeRepository(i: nat, ok: bool)
      requires Valid() && i < |tasks|
      requires match tasks[i].phase
               case Writing(_, landed) => ok ==> landed
               case Reading(found) => ok ==> found.Some?
               case Replacing(_, _, landed) => ok ==> landed
               case _ => false
      modifies this
      ensures View() == Step(old(View()), Complete(i, ok)) && Valid()
      ensures eager && tasks[i].phase.Returned? ==> tasks[i].phase.result == Plain(repository.row)
    {
      hide IsSound;
      StepIsSound(View(), Complete(i, ok));
      LoadReturns(View(), Complete(i, ok));
      PhaseIs(View(), i);
      var t := tasks[i];
      match t.phase {
        case Writing(_, _) =>
          writeTail := writeTail[1..];
          var current := RequireCurrentGeneration(t.generation);
          SetPhase(i, Finishing(if !ok then Broken else if current then Success else Superseded));
        case Reading(found) =>
          if !ok || !RequireReadableGeneration(t.generation) { Reject(i); }
          else if found.value.None? { SetPhase(i, Returned(None)); }
          else { SetPhase(i, Decrypting(found.value.value, false)); }
        case Replacing(read, _, _) =>
          if !ok || !RequireReadableGeneration(t.generation) {
            Reject(i);
          } else {
            SetPhase(i, Returned(Some(read.plain)));
          }
      }
    }

    /** decryptStringAsync settles; rotate is its shouldReEncrypt. */
    method ResumeDecryption(i: nat, ok: bool, rotate: bool)
      requires Valid() && i < |tasks| && tasks[i].phase.Decrypting?
      modifies this`tasks
      ensures View() == Step(old(View()), Decrypted(i, ok, rotate)) && Valid()
      ensures eager && tasks[i].phase.Returned? ==> tasks[i].phase.result == Plain(repository.row)
    {
      hide IsSound;
      StepIsSound(View(), Decrypted(i, ok, rotate));
      LoadReturns(View(), Decrypted(i, ok, rotate));
      var t := tasks[i];
      if !ok || !RequireReadableGeneration(t.generation) { Reject(i); }
      else if t.phase.again { SetPhase(i, Reencrypting(t.phase.read)); }
      else if rotate { SetPhase(i, Decrypting(t.phase.read, true)); }
      else { SetPhase(i, Returned(Some(t.phase.read.plain))); }
    }

    /** The catch and finally blocks of a mutation. */
    method Finally(i: nat)
      requires Valid() && i < |tasks| && tasks[i].phase.Finishing?
      modifies this
      ensures View() == Step(old(View()), Finish(i)) && Valid()
      ensures tasks[i].phase == Done(Success) && RequireCurrentGeneration(tasks[i].generation) ==>
                writeTail == [] && Fits(tasks[i].op, repository.row)
    {
      hide IsSound;
      StepIsSound(View(), Finish(i));
      NewestHolds(View(), i);
      var t := tasks[i];
      var outcome := t.phase.outcome;
      if t.op.Save? && outcome != Success && !RequireCurrentGeneration(t.generation) { outcome := Superseded; }
      SetPhase(i, Done(outcome));
      pendingMutationGenerations := pendingMutationGenerations - {t.generation};
    }
  }
}
