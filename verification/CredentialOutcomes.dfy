/**
 * How the operations of the credential store end, over whole runs: which saves and deletes succeed, which are
 * superseded
 * and which fail, which loads return, and that none of them is left waiting.
 */
module CredentialOutcomes {
  import opened Basics
  import opened CredentialProtocol
  import opened CredentialSafety

  // ----- What a task waits for -----

  /** The action is what task i waits for: one of its calls settles, takes effect, or it is its turn. */
  predicate Awaits(s: State, i: nat, a: Action)
    requires i < |s.tasks|
  {
    && !a.Begin? && a.task == i
    && match s.tasks[i].phase
       case Checking => a.Available?
       case Encrypting => a.Encrypted?
       case Queued(_) => a.StartWrite? && s.writeTail != [] && s.writeTail[0] == i
       case Writing(_, landed) => (a.Land? && !landed) || (a.Complete? && (a.ok ==> landed))
       case Finishing(_) => a.Finish?
       case Reading(found) => (a.Land? && found.None?) || (a.Complete? && (a.ok ==> found.Some?))
       case Decrypting(_, _) => a.Decrypted?
       case Reencrypting(_) => a.Encrypted?
       case Replacing(_, _, landed) => (a.Land? && !landed) || (a.Complete? && (a.ok ==> landed))
       case _ => false
  }

  predicate IsEnded(t: Task) {
    t.phase.Done? || t.phase.Returned?
  }

  /** How many actions a task waits for at most until it ends. */
  function Left(t: Task): nat {
    match t.phase
    case Checking => 8
    case Encrypting => 7
    case Reading(None) => 7
    case Reading(_) => 6
    case Decrypting(_, again) => if again then 4 else 5
    case Queued(_) => 4
    case Reencrypting(_) => 3
    case Writing(_, landed) => if landed then 2 else 3
    case Replacing(_, _, landed) => if landed then 1 else 2
    case Finishing(_) => 1
    case _ => 0
  }

  /** An awaited action takes a task further; any other leaves it where it is. */
  lemma AwaitedMoves(s: State, i: nat, a: Action)
    requires Invariant(s) && i < |s.tasks|
    ensures i < |Step(s, a).tasks|
    ensures if Awaits(s, i, a) then Left(Step(s, a).tasks[i]) < Left(s.tasks[i])
            else Step(s, a).tasks[i] == s.tasks[i]
  {
    OthersStay(s, a, i);
    if !a.Begin? && a.task == i {
      TaskIs(s, i);
      if s.tasks[i].phase.Writing? { WriterIsFirst(s, i); }
      hide Invariant;
      Moves(s, i, a);
    }
  }

  lemma Moves(s: State, i: nat, a: Action)
    requires i < |s.tasks| && !a.Begin? && a.task == i && TaskFits(s, s.tasks[i])
    requires s.tasks[i].phase.Writing? ==> s.writeTail != []
    ensures |Step(s, a).tasks| == |s.tasks|
    ensures if Awaits(s, i, a) then Left(Step(s, a).tasks[i]) < Left(s.tasks[i])
            else Step(s, a).tasks[i] == s.tasks[i]
  {
  }

  // ----- What is told of a task -----

  /** One of its calls failed; a newer save or delete began before it was through; its write went well. */
  datatype Story = Story(failed: bool, outrun: bool, written: bool)

  const UNTOLD := Story(false, false, false)

  predicate IsFailure(a: Action) {
    (a.Available? || a.Encrypted? || a.Complete? || a.Decrypted?) && !a.ok
  }

  /** A save or delete of this generation is not done yet. */
  predicate IsUnderWay(s: State, generation: nat) {
    exists j | 0 <= j < |s.tasks| ::
      IsMutation(s.tasks[j]) && s.tasks[j].generation == generation && !s.tasks[j].phase.Done?
  }

  /**
   * The story goes on by one action. Outrun: a save or delete begins while this task is not through, for a mutation
   * until its write went well; a load is also too late when the mutation it began after is still under way at the end
   * of its first call.
   */
  function Tell(story: Story, s: State, a: Action, i: nat): Story {
    if i >= |s.tasks| then story
    else
      var t, awaited := s.tasks[i], Awaits(s, i, a);
      Story(story.failed || (awaited && IsFailure(a)),
            || story.outrun || (BeginsMutation(a) && !story.written && !IsEnded(t))
            || (awaited && t.op.Load? && a.Available? && IsUnderWay(s, t.generation)),
            story.written || (awaited && t.phase.Writing? && a.Complete? && a.ok))
  }

  function Told(story: Story, s: State, actions: seq<Action>, i: nat): Story
    decreases |actions|
  {
    if actions == [] then story else Told(Tell(story, s, actions[0], i), Step(s, actions[0]), actions[1..], i)
  }

  /** How a save or delete ends by its story. A delete reports its own failure even when it was outrun. */
  function EndOf(op: Op, story: Story): Outcome {
    if story.failed && (op.Delete? || !story.outrun) then Broken else if story.outrun then Superseded else Success
  }

  predicate MutationMatches(s: State, t: Task, story: Story) {
    && (!story.written && !t.phase.Done? ==> (story.outrun <==> !Current(s, t)))
    && match t.phase
       case Finishing(o) =>
         if story.written then !story.failed && o == if story.outrun then Superseded else Success
         else
           && o != Success && (o == Broken ==> story.failed) && (o == Superseded ==> story.outrun)
           && (t.op.Delete? ==> (story.failed <==> o == Broken))
       case Done(o) =>
         o == EndOf(t.op, story) && (if story.written then !story.failed else story.failed || story.outrun)
       case _ => !story.failed && !story.written
  }

  predicate LoadMatches(s: State, t: Task, story: Story) {
    && !story.written
    && match t.phase
       case Done(o) => (story.failed || story.outrun) && o == if story.outrun then Superseded else Broken
       case Returned(_) => !story.failed && !story.outrun
       case _ => !story.failed && (story.outrun <==> !Current(s, t))
  }

  predicate Matches(s: State, i: nat, story: Story) {
    if i >= |s.tasks| then story == UNTOLD
    else if s.tasks[i].op.Load? then LoadMatches(s, s.tasks[i], story)
    else MutationMatches(s, s.tasks[i], story)
  }

  // ----- Generations still pending -----

  /** What is pending belongs to a save or delete that is not done. */
  predicate PendingIsUnderWay(s: State) {
    forall g | g in s.pending :: IsUnderWay(s, g)
  }

  lemma UnderWayIsPending(s: State, g: nat)
    requires Invariant(s) && PendingIsUnderWay(s)
    ensures IsUnderWay(s, g) <==> g in s.pending
  {
    if IsUnderWay(s, g) {
      var j :| 0 <= j < |s.tasks| && IsMutation(s.tasks[j]) && s.tasks[j].generation == g && !s.tasks[j].phase.Done?;
      TaskIs(s, j);
    }
  }

  lemma StaysUnderWay(s: State, a: Action, j: nat)
    requires Invariant(s) && j < |s.tasks| && IsMutation(s.tasks[j]) && !s.tasks[j].phase.Done?
             && (a.Begin? || a.task != j || !a.Finish?)
    ensures var t := Step(s, a);
            && j < |t.tasks| && t.tasks[j].op == s.tasks[j].op && t.tasks[j].generation == s.tasks[j].generation
            && !t.tasks[j].phase.Done?
  {
    OthersStay(s, a, j);
    TaskIs(s, j);
    hide Invariant;
  }

  lemma PendingAfter(s: State, a: Action)
    ensures var t := Step(s, a);
            t.pending == if BeginsMutation(a) then s.pending + {s.generation + 1}
                         else if a.Finish? && a.task < |s.tasks| && s.tasks[a.task].phase.Finishing? then
                           s.pending - {s.tasks[a.task].generation}
                         else s.pending
  {
  }

  lemma PendingStays(s: State, a: Action)
    requires Invariant(s) && PendingIsUnderWay(s)
    ensures PendingIsUnderWay(Step(s, a))
  {
    var t := Step(s, a);
    PendingAfter(s, a);
    hide Step, Invariant;
    forall g | g in t.pending ensures IsUnderWay(t, g) {
      if g in s.pending {
        var j :| 0 <= j < |s.tasks| && IsMutation(s.tasks[j]) && s.tasks[j].generation == g && !s.tasks[j].phase.Done?;
        if !a.Begin? && a.task == j && a.Finish? {
          NotFinishing(s, a, j);
        } else {
          StaysUnderWay(s, a, j);
        }
      } else {
        NewIsUnderWay(s, a);
      }
    }
  }

  lemma NotFinishing(s: State, a: Action, j: nat)
    requires j < |s.tasks| && a == Finish(j) && IsMutation(s.tasks[j]) && !s.tasks[j].phase.Finishing?
    ensures Step(s, a) == s
  {
  }

  lemma NewIsUnderWay(s: State, a: Action)
    requires BeginsMutation(a)
    ensures IsUnderWay(Step(s, a), s.generation + 1)
  {
    var t := Step(s, a);
    assert t.tasks[|s.tasks|].generation == s.generation + 1;
  }

  // ----- Every step fits the story -----

  lemma NewMatches(s: State, a: Action, i: nat)
    requires i >= |s.tasks| && i < |Step(s, a).tasks|
    ensures Matches(Step(s, a), i, UNTOLD)
  {
  }

  /** A task that waits for something else only sees newer generations begin. */
  lemma QuietMatches(s: State, a: Action, i: nat, story: Story)
    requires i < |s.tasks| && Matches(s, i, story) && !Awaits(s, i, a) && TaskFits(s, s.tasks[i])
    requires i < |Step(s, a).tasks| && Step(s, a).tasks[i] == s.tasks[i]
    requires Step(s, a).generation == if BeginsMutation(a) then s.generation + 1 else s.generation
    ensures Matches(Step(s, a), i, Tell(story, s, a, i))
  {
    hide Step, Awaits, EndOf;
  }

  lemma GenerationAfter(s: State, a: Action)
    ensures Step(s, a).generation == if BeginsMutation(a) then s.generation + 1 else s.generation
  {
  }

  lemma MutationMoves(s: State, a: Action, i: nat, story: Story)
    requires i < |s.tasks| && IsMutation(s.tasks[i]) && PhaseFits(s.tasks[i]) && MutationMatches(s, s.tasks[i], story)
    requires Awaits(s, i, a) && (s.tasks[i].phase.Writing? ==> s.writeTail != [])
    ensures Matches(Step(s, a), i, Tell(story, s, a, i))
  {
  }

  lemma LoadMoves(s: State, a: Action, i: nat, story: Story)
    requires i < |s.tasks| && s.tasks[i].op.Load? && PhaseFits(s.tasks[i]) && LoadMatches(s, s.tasks[i], story)
    requires Awaits(s, i, a) && (IsUnderWay(s, s.tasks[i].generation) <==> s.tasks[i].generation in s.pending)
    requires HasRead(s.tasks[i]) ==> s.tasks[i].generation !in s.pending
    ensures Matches(Step(s, a), i, Tell(story, s, a, i))
  {
    hide IsUnderWay;
  }

  lemma TellKeeps(s: State, a: Action, i: nat, story: Story)
    requires Invariant(s) && PendingIsUnderWay(s) && Matches(s, i, story)
    ensures Matches(Step(s, a), i, Tell(story, s, a, i))
  {
    if i >= |s.tasks| {
      hide Invariant, PendingIsUnderWay, Step;
      if i < |Step(s, a).tasks| { NewMatches(s, a, i); }
    } else {
      AwaitedMoves(s, i, a);
      GenerationAfter(s, a);
      TaskIs(s, i);
      UnderWayIsPending(s, s.tasks[i].generation);
      if s.tasks[i].phase.Writing? { WriterIsFirst(s, i); }
      hide Invariant, PendingIsUnderWay, Step, MutationMatches, LoadMatches, Awaits, Tell, IsUnderWay, PhaseFits;
      if !Awaits(s, i, a) {
        QuietMatches(s, a, i, story);
      } else if s.tasks[i].op.Load? {
        LoadMoves(s, a, i, story);
      } else {
        MutationMoves(s, a, i, story);
      }
    }
  }

  lemma {:induction false} RunTells(s: State, actions: seq<Action>, i: nat, story: Story)
    requires Invariant(s) && PendingIsUnderWay(s) && Matches(s, i, story)
    ensures Matches(Run(s, actions), i, Told(story, s, actions, i))
    ensures Invariant(Run(s, actions)) && PendingIsUnderWay(Run(s, actions))
    decreases |actions|
  {
    hide Invariant, PendingIsUnderWay, Matches, Step, Tell;
    if actions != [] {
      StepKeeps(s, actions[0]);
      PendingStays(s, actions[0]);
      TellKeeps(s, actions[0], i, story);
      RunTells(Step(s, actions[0]), actions[1..], i, Tell(story, s, actions[0], i));
    }
  }

  lemma FromTheStart(s: State, actions: seq<Action>, i: nat)
    requires Initial(s)
    ensures Matches(Run(s, actions), i, Told(UNTOLD, s, actions, i))
    ensures Invariant(Run(s, actions)) && PendingIsUnderWay(Run(s, actions))
  {
    InitialHolds(s);
    hide Invariant, Run, Told;
    RunTells(s, actions, i, UNTOLD);
  }

  // ----- How saves and deletes end -----

  /**
   * Over any run: a save or delete that is done succeeded exactly when none of its calls failed and no newer one began
   * before its write went well. A save failed exactly when a call of its own failed and no newer mutation began before
   * it was done; a delete exactly when its call failed. What is left was superseded: a newer one had begun.
   */
  lemma MutationsEndExactly(s: State, actions: seq<Action>, i: nat)
    requires Initial(s) && i < |Run(s, actions).tasks| && IsMutation(Run(s, actions).tasks[i])
    ensures var t, story := Run(s, actions).tasks[i], Told(UNTOLD, s, actions, i);
            t.phase.Done? ==>
              && (t.phase == Done(Success) <==> !story.failed && !story.outrun)
              && (t.phase == Done(Broken) <==> story.failed && (t.op.Delete? || !story.outrun))
              && (t.phase == Done(Superseded) <==> story.outrun && !(t.op.Delete? && story.failed))
              && (t.phase == Done(Success) ==> story.written)
  {
    FromTheStart(s, actions, i);
    hide Run, Told, Invariant, PendingIsUnderWay;
  }

  /**
   * Over any run: a load returns exactly when none of its calls failed, no save or delete began before it ended, and
   * the one it began after was done when its first call settled. It fails when a call of its own failed in that case.
   */
  lemma LoadsEndExactly(s: State, actions: seq<Action>, i: nat)
    requires Initial(s) && i < |Run(s, actions).tasks| && Run(s, actions).tasks[i].op.Load?
             && IsEnded(Run(s, actions).tasks[i])
    ensures var t, story := Run(s, actions).tasks[i], Told(UNTOLD, s, actions, i);
            && (t.phase.Returned? <==> !story.failed && !story.outrun)
            && (t.phase == Done(Broken) <==> story.failed && !story.outrun)
            && (t.phase == Done(Superseded) <==> story.outrun)
  {
    FromTheStart(s, actions, i);
    hide Run, Told, Invariant, PendingIsUnderWay;
  }

  // ----- None is left waiting -----

  /** How many actions in a run a task waited for. */
  function Own(s: State, actions: seq<Action>, i: nat): nat
    decreases |actions|
  {
    if actions == [] then 0
    else (if i < |s.tasks| && Awaits(s, i, actions[0]) then 1 else 0) + Own(Step(s, actions[0]), actions[1..], i)
  }

  /** Each of them takes the task further, and no other action takes it back: at most eight are ever needed. */
  lemma {:induction false} OwnActionsCount(s: State, actions: seq<Action>, i: nat)
    requires Invariant(s) && i < |s.tasks|
    ensures i < |Run(s, actions).tasks| && Left(Run(s, actions).tasks[i]) + Own(s, actions, i) <= Left(s.tasks[i]) <= 8
    decreases |actions|
  {
    hide Invariant, Step, Awaits;
    if actions != [] {
      StepKeeps(s, actions[0]);
      AwaitedMoves(s, i, actions[0]);
      OwnActionsCount(Step(s, actions[0]), actions[1..], i);
    }
  }

  /**
   * In every run, a task that has not ended waits for something that can go well, or stands in the queue behind another
   * task that does.
   */
  lemma NobodyIsStuck(s: State, actions: seq<Action>, i: nat) returns (j: nat, a: Action)
    requires Initial(s) && i < |Run(s, actions).tasks| && !IsEnded(Run(s, actions).tasks[i])
    ensures var r := Run(s, actions);
            && j < |r.tasks| && Awaits(r, j, a) && !IsFailure(a)
            && (j == i || (r.tasks[i].phase.Queued? && r.writeTail != [] && r.writeTail[0] == j && j < i))
  {
    FromTheStart(s, actions, i);
    hide Run;
    var r := Run(s, actions);
    j := i;
    if r.tasks[i].phase.Queued? {
      QueueHead(r, i);
      j := r.writeTail[0];
    }
    TaskIs(r, j);
    hide Invariant, PendingIsUnderWay, TaskFits;
    a := match r.tasks[j].phase
         case Checking => Available(j, true)
         case Encrypting => Encrypted(j, true, 0)
         case Queued(_) => StartWrite(j)
         case Writing(_, landed) => if landed then Complete(j, true) else Land(j)
         case Finishing(_) => Finish(j)
         case Reading(found) => if found.Some? then Complete(j, true) else Land(j)
         case Decrypting(_, _) => Decrypted(j, true, false)
         case Reencrypting(_) => Encrypted(j, true, 0)
         case Replacing(_, _, landed) => if landed then Complete(j, true) else Land(j)
         case _ => Finish(j);
  }

  lemma QueueHead(s: State, i: nat)
    requires Invariant(s) && i < |s.tasks| && s.tasks[i].phase.Queued?
    ensures s.writeTail != [] && s.writeTail[0] <= i && s.writeTail[0] < |s.tasks| && IsWriting(s.tasks[s.writeTail[0]])
  {
    hide TasksFit, Ordered, LatestHolds;
    assert IsWriting(s.tasks[i]);
    var k :| 0 <= k < |s.writeTail| && s.writeTail[k] == i;
    if k > 0 { assert s.writeTail[0] < s.writeTail[k]; }
  }

  // ----- Undisturbed -----

  lemma RunOne(s: State, a: Action, rest: seq<Action>)
    ensures Run(s, [a] + rest) == Run(Step(s, a), rest)
    ensures rest == [] ==> Run(s, [a] + rest) == Step(s, a)
  {
    hide Step;
    assert ([a] + rest)[1..] == rest;
  }

  /** A write that is queued alone is run to its end. */
  function WriteScript(i: nat): seq<Action> {
    [StartWrite(i)] + ([Land(i)] + ([Complete(i, true)] + ([Finish(i)] + [])))
  }

  lemma WriteRuns(s: State, i: nat, value: Option<Cipher>)
    requires i < |s.tasks| && s.tasks[i].phase == Queued(value) && s.writeTail == [i] && Current(s, s.tasks[i])
    ensures var t := Run(s, WriteScript(i));
            && t.tasks == s.tasks[i := s.tasks[i].(phase := Done(Success))] && t.stored == value && t.writeTail == []
            && t.generation == s.generation && t.pending == s.pending - {s.tasks[i].generation}
  {
    hide Run;
    var s1 := Step(s, StartWrite(i));
    var s2 := Step(s1, Land(i));
    var s3 := Step(s2, Complete(i, true));
    RunOne(s, StartWrite(i), [Land(i)] + ([Complete(i, true)] + ([Finish(i)] + [])));
    RunOne(s1, Land(i), [Complete(i, true)] + ([Finish(i)] + []));
    RunOne(s2, Complete(i, true), [Finish(i)] + []);
    RunOne(s3, Finish(i), []);
    WriteLands(s, i, value);
    hide Step;
    WriteEnds(s2, i, value);
  }

  lemma WriteLands(s: State, i: nat, value: Option<Cipher>)
    requires i < |s.tasks| && s.tasks[i].phase == Queued(value) && s.writeTail == [i] && Current(s, s.tasks[i])
    ensures Step(Step(s, StartWrite(i)), Land(i))
         == s.(stored := value, writes := s.writes + 1,
           tasks := s.tasks[i := s.tasks[i].(phase := Writing(value, true))])
  {
  }

  lemma WriteEnds(s: State, i: nat, value: Option<Cipher>)
    requires i < |s.tasks| && s.tasks[i].phase == Writing(value, true) && s.writeTail == [i] && Current(s, s.tasks[i])
    ensures Step(Step(s, Complete(i, true)), Finish(i))
         == s.(writeTail := [], tasks := s.tasks[i := s.tasks[i].(phase := Done(Success))],
           pending := s.pending - {s.tasks[i].generation})
  {
  }

  /** With nothing queued, a save whose calls go well succeeds and is what is stored; and so is a delete. */
  lemma UncontestedMutationsSucceed(s: State, credentials: Credentials, nonce: nat)
    requires s.writeTail == []
    ensures var i := |s.tasks|;
            var saved := Run(s, [Begin(Save(credentials))]
              + ([Available(i, true)] + ([Encrypted(i, true, nonce)] + WriteScript(i))));
            var deleted := Run(s, [Begin(Delete)] + WriteScript(i));
            && |saved.tasks| == |deleted.tasks| == i + 1
            && saved.tasks[i].phase == Done(Success) && saved.stored == Some(Cipher(credentials, nonce))
            && deleted.tasks[i].phase == Done(Success) && deleted.stored == None
  {
    hide Run, WriteScript;
    var i := |s.tasks|;
    var s1 := Step(s, Begin(Save(credentials)));
    var s2 := Step(s1, Available(i, true));
    var s3 := Step(s2, Encrypted(i, true, nonce));
    RunOne(s, Begin(Save(credentials)), [Available(i, true)] + ([Encrypted(i, true, nonce)] + WriteScript(i)));
    RunOne(s1, Available(i, true), [Encrypted(i, true, nonce)] + WriteScript(i));
    RunOne(s2, Encrypted(i, true, nonce), WriteScript(i));
    WriteRuns(s3, i, Some(Cipher(credentials, nonce)));
    RunOne(s, Begin(Delete), WriteScript(i));
    WriteRuns(Step(s, Begin(Delete)), i, None);
  }

  /** A load whose calls go well, with no save or delete under way, returns what is stored, or that nothing is. */
  lemma UncontestedLoadReturns(s: State)
    requires s.generation !in s.pending
    ensures var i := |s.tasks|;
            var t := Run(s, [Begin(Load)] + ([Available(i, true)]
              + ([Land(i)] + ([Complete(i, true)] + ([Decrypted(i, true, false)] + [])))));
            |t.tasks| == i + 1 && t.tasks[i].phase == Returned(Plain(s.stored)) && t.stored == s.stored
  {
    hide Run;
    var i := |s.tasks|;
    var s1 := Step(s, Begin(Load));
    var s2 := Step(s1, Available(i, true));
    var s3 := Step(s2, Land(i));
    assert s3.tasks[i].phase == Reading(Some(s.stored)) && s3.stored == s.stored;
    var s4 := Step(s3, Complete(i, true));
    RunOne(s, Begin(Load), [Available(i, true)] + ([Land(i)]
      + ([Complete(i, true)] + ([Decrypted(i, true, false)] + []))));
    RunOne(s1, Available(i, true), [Land(i)] + ([Complete(i, true)] + ([Decrypted(i, true, false)] + [])));
    RunOne(s2, Land(i), [Complete(i, true)] + ([Decrypted(i, true, false)] + []));
    RunOne(s3, Complete(i, true), [Decrypted(i, true, false)] + []);
    RunOne(s4, Decrypted(i, true, false), []);
  }

  /** After the first decryption asked for a rotation: decrypted again, encrypted anew, and swapped in. */
  function RotationScript(i: nat, nonce: nat): seq<Action> {
    [Decrypted(i, true, true)]
    + ([Decrypted(i, true, false)] + ([Encrypted(i, true, nonce)] + ([Land(i)] + ([Complete(i, true)] + []))))
  }

  lemma RotationRuns(s: State, i: nat, nonce: nat)
    requires i < |s.tasks| && s.tasks[i].phase.Decrypting? && !s.tasks[i].phase.again && Readable(s, s.tasks[i])
    requires s.stored == Some(s.tasks[i].phase.read)
    ensures var t, plain := Run(s, RotationScript(i, nonce)), s.tasks[i].phase.read.plain;
            |t.tasks| == |s.tasks| && t.tasks[i].phase == Returned(Some(plain))
              && t.stored == Some(Cipher(plain, nonce))
  {
    hide Run;
    var s1 := Step(s, Decrypted(i, true, true));
    var s2 := Step(s1, Decrypted(i, true, false));
    assert s2.tasks[i].phase == Reencrypting(s.tasks[i].phase.read) && s2.stored == s.stored;
    var s3 := Step(s2, Encrypted(i, true, nonce));
    var s4 := Step(s3, Land(i));
    var end := [Land(i)] + ([Complete(i, true)] + []);
    RunOne(s, Decrypted(i, true, true), [Decrypted(i, true, false)] + ([Encrypted(i, true, nonce)] + end));
    RunOne(s1, Decrypted(i, true, false), [Encrypted(i, true, nonce)] + end);
    RunOne(s2, Encrypted(i, true, nonce), end);
    RunOne(s3, Land(i), [Complete(i, true)] + []);
    RunOne(s4, Complete(i, true), []);
  }

  /** Such a load whose key has to be rotated returns the same, and leaves it stored under the new encryption. */
  lemma UncontestedLoadRotates(s: State, nonce: nat)
    requires s.generation !in s.pending && s.stored.Some?
    ensures var i, plain := |s.tasks|, s.stored.value.plain;
            var t := Run(s, [Begin(Load)] + ([Available(i, true)]
              + ([Land(i)] + ([Complete(i, true)] + RotationScript(i, nonce)))));
            |t.tasks| == i + 1 && t.tasks[i].phase == Returned(Some(plain)) && t.stored == Some(Cipher(plain, nonce))
  {
    hide Run, RotationScript;
    var i := |s.tasks|;
    var s1 := Step(s, Begin(Load));
    var s2 := Step(s1, Available(i, true));
    var s3 := Step(s2, Land(i));
    assert s3.tasks[i].phase == Reading(Some(s.stored)) && s3.stored == s.stored;
    var s4 := Step(s3, Complete(i, true));
    RunOne(s, Begin(Load), [Available(i, true)] + ([Land(i)] + ([Complete(i, true)] + RotationScript(i, nonce))));
    RunOne(s1, Available(i, true), [Land(i)] + ([Complete(i, true)] + RotationScript(i, nonce)));
    RunOne(s2, Land(i), [Complete(i, true)] + RotationScript(i, nonce));
    RunOne(s3, Complete(i, true), RotationScript(i, nonce));
    RotationRuns(s4, i, nonce);
  }
}
