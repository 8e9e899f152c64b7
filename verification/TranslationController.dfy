/**
 * The controller of apps/desktop/src/main/translation/translation-controller.ts: the session reducer driven with
 * abort signals, a deadline and promises that may settle at any later time, in any order.
 */
module TranslationController {
  import opened Basics
  import opened TranslationSession

  datatype Settings = Settings(enabled: bool, providerId: string, credentialsConfigured: bool, consentVersion: int)

  const CONSENT_VERSION := 1

  predicate CanTranslate(providerId: string, settings: Settings) {
    && settings.enabled && settings.providerId == providerId && settings.credentialsConfigured
    && settings.consentVersion >= CONSENT_VERSION
  }

  /** How a provider settles: its answers carry the ids they were asked with. */
  datatype Outcome =
    | Success(translatedText: string, targetLanguage: string, attribution: string, fromCache: bool,
      detected: Option<string>)
    | ProviderFailure(code: string, retryable: bool, retryAfterMs: Option<nat>)
    | OtherError

  /** What the race between provider and cancellation came to. */
  datatype Race = Open | Answered(outcome: Outcome) | Aborted(failure: Failure)

  /**
   * One issued request. settings are those of the turn that called the provider. aborted: its signal fired; timedOut:
   * its deadline passed; reacted: the reaction to the race has run; finished: so has the finally block.
   */
  datatype Call = Call(
    selection: Selection, settings: Settings, race: Race, aborted: bool, timedOut: bool, reacted: bool, finished: bool)

  /** shown is what presentCard and hideCard left on screen. */
  datatype State = State(
    session: Stage, bounds: Option<nat>, active: Option<string>, calls: map<string, Call>, shown: Option<Card>)

  datatype Action =
    | HandleSelection(selection: Selection, bounds: nat, settings: Settings, id: string)
    | Retry(settings: Settings, id: string)
    | Dismiss
    | Settle(id: string, outcome: Outcome)
    | Deadline(id: string)
    | React(id: string)
    | Finally(id: string)

  const INITIAL := State(Nothing, None, None, map[], None)

  // ----- Effects -----

  function CancelledFailure(id: string, selectionId: string): Failure {
    Failure(id, selectionId, "cancelled", false, None)
  }

  function TimeoutFailure(id: string, selectionId: string): Failure {
    Failure(id, selectionId, "network-unavailable", true, None)
  }

  /** The signal fires once; its listener rejects the cancellation, which decides a race still open. */
  function Abort(call: Call, id: string): Call {
    if call.aborted then call
    else
      var failure := if call.timedOut then TimeoutFailure(id, call.selection.selectionId)
                     else CancelledFailure(id, call.selection.selectionId);
      call.(aborted := true, race := if call.race.Open? && !call.finished then Aborted(failure) else call.race)
  }

  function Execute(s: State, effect: Effect, settings: Settings): State {
    match effect
    case Cancel(id) =>
      if s.active != Some(id) then s
      else s.(active := None, calls := if id in s.calls then s.calls[id := Abort(s.calls[id], id)] else s.calls)
    case Request(selection, id) =>
      s.(active := Some(id), calls := s.calls[id := Call(selection, settings, Open, false, false, false, false)])
    case Present(card) => if s.bounds.Some? then s.(shown := Some(card)) else s
    case DismissCard => s.(shown := None)
  }

  function ExecuteAll(s: State, effects: seq<Effect>, settings: Settings): State
    decreases |effects|
  {
    if effects == [] then s else ExecuteAll(Execute(s, effects[0], settings), effects[1..], settings)
  }

  function Apply(s: State, event: Event, settings: Settings): State {
    var t := Next(s.session, event);
    ExecuteAll(s.(session := t.stage), t.effects, settings)
  }

  /** The event the reaction to a decided race applies. The deadline turns every failure into a timeout. */
  function Reaction(call: Call, id: string): Event
    requires !call.race.Open?
  {
    var selectionId := call.selection.selectionId;
    if call.race.Answered? && call.race.outcome.Success? then
      var o := call.race.outcome;
      Succeeded(Translation(id, selectionId, o.translatedText, o.targetLanguage, o.attribution, o.fromCache,
        o.detected))
    else if call.timedOut then Failing(TimeoutFailure(id, selectionId))
    else
      Failing(match call.race
              case Aborted(failure) => failure
              case Answered(ProviderFailure(code, retryable, retryAfterMs)) => Failure(id, selectionId, code,
                retryable, retryAfterMs)
              case _ => Failure(id, selectionId, "unknown", false, None))
  }

  /** Ids are new; what can happen to a call happens once and in order: it is decided, reacted to, then cleaned up. */
  predicate Enabled(s: State, a: Action) {
    match a
    case HandleSelection(_, _, _, id) => id !in s.calls
    case Retry(_, id) => id !in s.calls
    case Dismiss => true
    case Settle(id, _) => id in s.calls && s.calls[id].race.Open?
    case Deadline(id) => id in s.calls && !s.calls[id].timedOut && !s.calls[id].finished
    case React(id) => id in s.calls && !s.calls[id].race.Open? && !s.calls[id].reacted
    case Finally(id) => id in s.calls && s.calls[id].reacted && !s.calls[id].finished
  }

  function Step(providerId: string, s: State, a: Action): State {
    if !Enabled(s, a) then s
    else
      match a
      case HandleSelection(selection, bounds, settings, id) =>
        var allowed := CanTranslate(providerId, settings);
        Apply(s.(bounds := Some(bounds)), Received(selection, allowed, if allowed then Some(id) else None), settings)
      case Retry(settings, id) =>
        if !s.session.Failed? || !CanTranslate(providerId, settings) then s else Apply(s, RetryRequested(id), settings)
      case Dismiss => Apply(s, DismissSession, NO_SETTINGS).(bounds := None)
      case Settle(id, outcome) => s.(calls := s.calls[id := s.calls[id].(race := Answered(outcome))])
      case Deadline(id) => s.(calls := s.calls[id := Abort(s.calls[id].(timedOut := true), id)])
      case React(id) =>
        var call := s.calls[id];
        Apply(s.(calls := s.calls[id := call.(reacted := true)]), Reaction(call, id), NO_SETTINGS)
      case Finally(id) =>
        s.(calls := s.calls[id := s.calls[id].(finished := true)],
          active := if s.active == Some(id) then None else s.active)
  }

  /** Settings are looked at only where a request is made. */
  const NO_SETTINGS := Settings(false, "", false, 0)

  function Run(providerId: string, s: State, actions: seq<Action>): State
    decreases |actions|
  {
    if actions == [] then s else Run(providerId, Step(providerId, s, actions[0]), actions[1..])
  }

  // ----- What every step keeps -----

  /** A call the session no longer waits for. */
  predicate IsOver(call: Call) {
    call.aborted || call.reacted
  }

  predicate CallFits(providerId: string, s: State, id: string)
    requires id in s.calls
  {
    var call := s.calls[id];
    && CanTranslate(providerId, call.settings)
    && (call.finished ==> call.reacted) && (call.aborted || call.reacted ==> !call.race.Open?)
    && (call.timedOut ==> call.aborted)
    && (call.race.Aborted? ==>
          call.aborted && call.race.failure.requestId == id
            && call.race.failure.selectionId == call.selection.selectionId)
    && (s.session.Translating? && s.session.requestId == id ==>
          !call.reacted && call.selection == s.session.selection && (call.aborted ==> call.timedOut))
    && (!(s.session.Translating? && s.session.requestId == id) ==> IsOver(call))
  }

  predicate Invariant(providerId: string, s: State) {
    && (s.session.Translating? ==> s.active == Some(s.session.requestId) && s.session.requestId in s.calls)
    && (forall id | id in s.calls :: CallFits(providerId, s, id))
    && s.shown == CardOf(s.session) && (!s.session.Nothing? ==> s.bounds.Some?)
  }

  // ----- Effect lists -----

  lemma {:induction false} ExecuteConcat(s: State, a: seq<Effect>, b: seq<Effect>, settings: Settings)
    ensures ExecuteAll(s, a + b, settings) == ExecuteAll(ExecuteAll(s, a, settings), b, settings)
    decreases |a|
  {
    hide Execute;
    if a == [] {
      assert a + b == b;
    } else {
      assert (a + b)[1..] == a[1..] + b;
      ExecuteConcat(Execute(s, a[0], settings), a[1..], b, settings);
    }
  }

  lemma ExecuteOne(s: State, a: Effect, settings: Settings)
    ensures ExecuteAll(s, [a], settings) == Execute(s, a, settings)
  {
    hide Execute;
    assert [a][1..] == [];
    assert ExecuteAll(Execute(s, a, settings), [], settings) == Execute(s, a, settings);
  }

  lemma ExecuteTwo(s: State, a: Effect, b: Effect, settings: Settings)
    ensures ExecuteAll(s, [a, b], settings) == Execute(Execute(s, a, settings), b, settings)
  {
    hide Execute;
    assert [a, b][1..] == [b];
    ExecuteOne(Execute(s, a, settings), b, settings);
  }

  /** What dismissing a stage leaves: its request aborted, no card. */
  function Dismissed(s: State, stage: Stage): State {
    if stage.Nothing? then s
    else if stage.Translating? then Execute(s, Cancel(stage.requestId), NO_SETTINGS).(shown := None)
    else s.(shown := None)
  }

  lemma DismissIs(s: State, stage: Stage, settings: Settings)
    ensures ExecuteAll(s, DismissOf(stage), settings) == Dismissed(s, stage)
  {
    if stage.Translating? {
      assert DismissOf(stage) == [Cancel(stage.requestId), DismissCard];
      ExecuteTwo(s, Cancel(stage.requestId), DismissCard, settings);
    } else if !stage.Nothing? {
      assert DismissOf(stage) == [DismissCard];
      ExecuteOne(s, DismissCard, settings);
    }
  }

  // ----- Leaving and entering the translating stage -----

  /** No session waits for anything: all calls are over. */
  predicate AllOver(providerId: string, s: State) {
    !s.session.Translating? && forall id | id in s.calls :: CallFits(providerId, s, id)
  }

  /** Once its stage is dismissed, every call is aborted or has been reacted to. */
  lemma DismissedIsOver(providerId: string, s: State, stage: Stage)
    requires Invariant(providerId, s) && !stage.Translating?
    ensures AllOver(providerId, Dismissed(s, s.session).(session := stage)) && Dismissed(s, s.session).shown == None
    ensures Dismissed(s, s.session).bounds == s.bounds && Dismissed(s, s.session).calls.Keys == s.calls.Keys
  {
    var t := Dismissed(s, s.session).(session := stage);
    forall id | id in t.calls ensures CallFits(providerId, t, id) { assert CallFits(providerId, s, id); }
  }

  /** Dismissing reads nothing of the session and the bounds. */
  lemma DismissedLater(s: State, was: Stage, stage: Stage, bounds: Option<nat>)
    ensures Dismissed(s.(session := stage, bounds := bounds), was)
            == Dismissed(s, was).(session := stage, bounds := bounds)
  {
  }

  lemma StartedFits(providerId: string, s: State, selection: Selection, id: string, settings: Settings)
    requires AllOver(providerId, s) && id !in s.calls && s.bounds.Some? && CanTranslate(providerId, settings)
    ensures Invariant(providerId, ExecuteAll(s.(session := Translating(selection, id)),
              StartTranslating(selection, id), settings))
  {
    var begin := s.(session := Translating(selection, id));
    ExecuteTwo(begin, Present(BaseCard(selection, TranslatingCard(id))), Request(selection, id), settings);
    var t := ExecuteAll(begin, StartTranslating(selection, id), settings);
    forall x | x in t.calls ensures CallFits(providerId, t, x) { if x != id { assert CallFits(providerId, s, x); } }
  }

  lemma SelectionKeeps(providerId: string, s: State, selection: Selection, bounds: nat, settings: Settings, id: string)
    requires Invariant(providerId, s) && id !in s.calls
    ensures Invariant(providerId, Step(providerId, s, HandleSelection(selection, bounds, settings, id)))
  {
    var event := Received(selection, CanTranslate(providerId, settings),
      if CanTranslate(providerId, settings) then Some(id) else None);
    var t := Next(s.session, event);
    hide Invariant, AllOver, CanTranslate, ExecuteAll, Dismissed, IsRequestId, CardOf;
    var begin := s.(bounds := Some(bounds), session := t.stage);
    DismissIs(begin, s.session, settings);
    DismissedLater(s, s.session, t.stage, Some(bounds));
    var gone := Dismissed(s, s.session).(bounds := Some(bounds));
    if t.stage.Translating? {
      ExecuteConcat(begin, DismissOf(s.session), StartTranslating(selection, id), settings);
      DismissedIsOver(providerId, s, Nothing);
      BoundsUnseen(providerId, Dismissed(s, s.session).(session := Nothing), Some(bounds));
      StartedFits(providerId, gone.(session := Nothing), selection, id, settings);
    } else {
      var present := Present(BaseCard(selection, SourceCard));
      ExecuteConcat(begin, DismissOf(s.session), [present], settings);
      DismissedIsOver(providerId, s, t.stage);
      ExecuteOne(gone.(session := t.stage), present, settings);
      OverFits(providerId, gone.(session := t.stage), Dismissed(s, s.session).(session := t.stage), selection);
    }
  }

  lemma BoundsUnseen(providerId: string, s: State, bounds: Option<nat>)
    requires AllOver(providerId, s)
    ensures AllOver(providerId, s.(bounds := bounds))
  {
    forall id | id in s.calls ensures CallFits(providerId, s.(bounds := bounds), id) {
      assert CallFits(providerId, s, id);
    }
  }

  lemma OverFits(providerId: string, t: State, s: State, selection: Selection)
    requires AllOver(providerId, s) && t == s.(bounds := t.bounds) && t.bounds.Some?
             && t.session == SourceOnly(selection)
    ensures Invariant(providerId, Execute(t, Present(BaseCard(selection, SourceCard)), NO_SETTINGS))
    ensures forall settings :: Execute(t, Present(BaseCard(selection, SourceCard)), settings)
                            == Execute(t, Present(BaseCard(selection, SourceCard)), NO_SETTINGS)
  {
    var u := Execute(t, Present(BaseCard(selection, SourceCard)), NO_SETTINGS);
    forall id | id in u.calls ensures CallFits(providerId, u, id) { assert CallFits(providerId, s, id); }
  }

  lemma RetryKeeps(providerId: string, s: State, settings: Settings, id: string)
    requires Invariant(providerId, s) && id !in s.calls
    ensures Invariant(providerId, Step(providerId, s, Retry(settings, id)))
  {
    if s.session.Failed? && CanTranslate(providerId, settings) {
      hide IsRequestId, CardOf;
      if IsRequestId(id) && s.session.requestId != id {
        StartedFits(providerId, s, s.session.selection, id, settings);
      } else {
        assert Next(s.session, RetryRequested(id)) == Transition(s.session, []);
      }
    }
  }

  lemma DismissKeeps(providerId: string, s: State)
    requires Invariant(providerId, s)
    ensures Invariant(providerId, Step(providerId, s, Dismiss))
  {
    DismissIs(s.(session := Nothing), s.session, NO_SETTINGS);
    DismissedLater(s, s.session, Nothing, s.bounds);
    DismissedIsOver(providerId, s, Nothing);
    hide ExecuteAll, Dismissed;
    var t := Step(providerId, s, Dismiss);
    var over := Dismissed(s, s.session).(session := Nothing);
    assert t == over.(bounds := None);
    forall id | id in t.calls ensures CallFits(providerId, t, id) { assert CallFits(providerId, over, id); }
  }

  // ----- Settlements, deadlines, reactions -----

  lemma SettleKeeps(providerId: string, s: State, id: string, outcome: Outcome)
    requires Invariant(providerId, s) && Enabled(s, Settle(id, outcome))
    ensures Invariant(providerId, Step(providerId, s, Settle(id, outcome)))
  {
    var t := Step(providerId, s, Settle(id, outcome));
    forall x | x in t.calls ensures CallFits(providerId, t, x) { assert CallFits(providerId, s, x); }
  }

  lemma DeadlineKeeps(providerId: string, s: State, id: string)
    requires Invariant(providerId, s) && Enabled(s, Deadline(id))
    ensures Invariant(providerId, Step(providerId, s, Deadline(id)))
  {
    var t := Step(providerId, s, Deadline(id));
    forall x | x in t.calls ensures CallFits(providerId, t, x) { assert CallFits(providerId, s, x); }
  }

  lemma FinallyKeeps(providerId: string, s: State, id: string)
    requires Invariant(providerId, s) && Enabled(s, Finally(id))
    ensures Invariant(providerId, Step(providerId, s, Finally(id)))
  {
    var t := Step(providerId, s, Finally(id));
    assert CallFits(providerId, s, id);
    forall x | x in t.calls ensures CallFits(providerId, t, x) { assert CallFits(providerId, s, x); }
  }

  predicate IsWaitedFor(s: State, id: string) {
    s.session.Translating? && s.session.requestId == id
  }

  /** The reaction names its own request and selection. */
  lemma ReactionNames(call: Call, id: string)
    requires !call.race.Open?
    requires call.race.Aborted? ==>
               call.race.failure.requestId == id && call.race.failure.selectionId == call.selection.selectionId
    ensures match Reaction(call, id)
            case Succeeded(r) => r.requestId == id && r.selectionId == call.selection.selectionId
            case Failing(f) => f.requestId == id && f.selectionId == call.selection.selectionId
            case _ => false
  {
  }

  function MarkReacted(s: State, id: string): State
    requires id in s.calls
  {
    s.(calls := s.calls[id := s.calls[id].(reacted := true)])
  }

  /** A session that waits for another request, or for none, does not hear a reaction. */
  lemma LateReaction(providerId: string, s: State, id: string)
    requires Enabled(s, React(id)) && !IsWaitedFor(s, id) && CallFits(providerId, s, id)
    ensures Step(providerId, s, React(id)) == MarkReacted(s, id)
  {
    ReactionNames(s.calls[id], id);
    hide Reaction;
    assert Next(s.session, Reaction(s.calls[id], id)) == Transition(s.session, []);
  }

  /** The reaction that is waited for ends the waiting and shows its own card. */
  lemma TimelyReaction(providerId: string, s: State, id: string)
    requires Invariant(providerId, s) && Enabled(s, React(id)) && IsWaitedFor(s, id)
    ensures var t, stage := Step(providerId, s, React(id)), Next(s.session, Reaction(s.calls[id], id)).stage;
            && !stage.Translating? && !stage.Nothing? && stage.selection == s.session.selection
            && t == MarkReacted(s, id).(session := stage, shown := CardOf(stage))
  {
    assert CallFits(providerId, s, id);
    ReactionNames(s.calls[id], id);
    hide Reaction, Execute;
    var marked := MarkReacted(s, id);
    var event := Reaction(s.calls[id], id);
    var u := Next(s.session, event);
    assert u.effects == [Present(CardOf(u.stage).value)];
    ExecuteOne(marked.(session := u.stage), Present(CardOf(u.stage).value), NO_SETTINGS);
    PresentShows(marked.(session := u.stage), CardOf(u.stage).value);
  }

  lemma PresentShows(s: State, card: Card)
    requires s.bounds.Some?
    ensures Execute(s, Present(card), NO_SETTINGS) == s.(shown := Some(card))
  {
  }

  lemma ReactKeeps(providerId: string, s: State, id: string)
    requires Invariant(providerId, s) && Enabled(s, React(id))
    ensures Invariant(providerId, Step(providerId, s, React(id)))
  {
    assert CallFits(providerId, s, id);
    var t := Step(providerId, s, React(id));
    if IsWaitedFor(s, id) { TimelyReaction(providerId, s, id); } else { LateReaction(providerId, s, id); }
    hide Step, Reaction, CardOf;
    forall x | x in t.calls ensures CallFits(providerId, t, x) { assert CallFits(providerId, s, x); }
  }

  lemma StepKeeps(providerId: string, s: State, a: Action)
    requires Invariant(providerId, s)
    ensures Invariant(providerId, Step(providerId, s, a))
  {
    hide Invariant;
    if Enabled(s, a) {
      match a {
        case HandleSelection(selection, bounds, settings, id) => SelectionKeeps(providerId, s, selection, bounds,
          settings, id);
        case Retry(settings, id) => RetryKeeps(providerId, s, settings, id);
        case Dismiss => DismissKeeps(providerId, s);
        case Settle(id, outcome) => SettleKeeps(providerId, s, id, outcome);
        case Deadline(id) => DeadlineKeeps(providerId, s, id);
        case React(id) => ReactKeeps(providerId, s, id);
        case Finally(id) => FinallyKeeps(providerId, s, id);
      }
    }
  }

  lemma {:induction false} RunKeeps(providerId: string, s: State, actions: seq<Action>)
    requires Invariant(providerId, s)
    ensures Invariant(providerId, Run(providerId, s, actions))
    decreases |actions|
  {
    hide Invariant, Step;
    if actions != [] {
      StepKeeps(providerId, s, actions[0]);
      RunKeeps(providerId, Step(providerId, s, actions[0]), actions[1..]);
    }
  }

  // ----- No late result is ever shown -----

  /**
   * In every run: the screen shows the card of the session; a translating session has an active request of its own;
   * every other issued request was aborted or its answer was heard; and each provider call was made in a turn in which
   * translation was allowed.
   */
  lemma SessionOwnsTheRequest(providerId: string, actions: seq<Action>)
    ensures var s := Run(providerId, INITIAL, actions);
            && s.shown == CardOf(s.session)
            && (s.session.Translating? ==> s.active == Some(s.session.requestId) && s.session.requestId in s.calls
                                           && !s.calls[s.session.requestId].reacted)
            && (forall id | id in s.calls && !IsWaitedFor(s, id) :: s.calls[id].aborted || s.calls[id].reacted)
            && forall id | id in s.calls :: CanTranslate(providerId, s.calls[id].settings)
  {
    RunKeeps(providerId, INITIAL, actions);
    hide Run;
    var s := Run(providerId, INITIAL, actions);
    assert forall id | id in s.calls :: CallFits(providerId, s, id);
  }

  /**
   * A settlement of any request but the one waited for changes neither session nor card, now or when it
   * is reacted to.
   */
  lemma NoLateResultIsShown(providerId: string, actions: seq<Action>, id: string, outcome: Outcome)
    requires !IsWaitedFor(Run(providerId, INITIAL, actions), id)
    ensures var s := Run(providerId, INITIAL, actions);
            forall a | a in [Settle(id, outcome), Deadline(id), React(id), Finally(id)] ::
              Step(providerId, s, a).session == s.session && Step(providerId, s, a).shown == s.shown
  {
    RunKeeps(providerId, INITIAL, actions);
    hide Run;
    var s := Run(providerId, INITIAL, actions);
    if Enabled(s, React(id)) {
      assert CallFits(providerId, s, id);
      LateReaction(providerId, s, id);
    }
  }

  /**
   * What an awaited request ends in: its translation; after the deadline a retryable network failure; otherwise the
   * provider's own failure, an unknown one, or the source alone when the provider says it was cancelled.
   */
  predicate IsAnswerOf(stage: Stage, call: Call, id: string) {
    var selection, selectionId := call.selection, call.selection.selectionId;
    if call.race.Answered? && call.race.outcome.Success? then
      var o := call.race.outcome;
      stage == Translated(selection, id, Translation(id, selectionId, o.translatedText, o.targetLanguage, o.attribution,
                                                     o.fromCache, o.detected))
    else if call.timedOut then
      stage == Failed(selection, id, Failure(id, selectionId, "network-unavailable", true, None))
    else
      match call.race
      case Answered(ProviderFailure(code, retryable, retryAfterMs)) =>
        stage == if code == "cancelled" then SourceOnly(selection)
                 else Failed(selection, id, Failure(id, selectionId, code, retryable, retryAfterMs))
      case Answered(OtherError) => stage == Failed(selection, id, Failure(id, selectionId, "unknown", false, None))
      case _ => false
  }

  lemma AwaitedAnswer(providerId: string, s: State, id: string)
    requires Invariant(providerId, s) && Enabled(s, React(id)) && IsWaitedFor(s, id)
    ensures var t := Step(providerId, s, React(id));
            t.shown == CardOf(t.session) && IsAnswerOf(t.session, s.calls[id], id)
              && s.calls[id].selection == s.session.selection
  {
    assert CallFits(providerId, s, id);
    ReactionNames(s.calls[id], id);
    TimelyReaction(providerId, s, id);
    hide Step, CardOf;
  }

  /** When the request waited for is reacted to, what it ended in is the session, and its card is on screen. */
  lemma TheAnswerIsShown(providerId: string, actions: seq<Action>, id: string)
    requires var s := Run(providerId, INITIAL, actions); IsWaitedFor(s, id) && id in s.calls && !s.calls[id].race.Open?
    ensures var s := Run(providerId, INITIAL, actions);
            var t := Step(providerId, s, React(id));
            && t.shown == CardOf(t.session) && IsAnswerOf(t.session, s.calls[id], id)
            && s.calls[id].selection == s.session.selection
  {
    RunKeeps(providerId, INITIAL, actions);
    assert CallFits(providerId, Run(providerId, INITIAL, actions), id);
    hide Run, Step, Invariant;
    AwaitedAnswer(providerId, Run(providerId, INITIAL, actions), id);
  }

  // ----- What is asked for is done -----

  /** The settings of a turn in which translation is allowed, spelled out. */
  predicate IsAllowed(providerId: string, settings: Settings) {
    settings.enabled && settings.providerId == providerId && settings.credentialsConfigured
      && settings.consentVersion >= 1
  }

  /** A call that was just issued: nothing has happened to it yet. */
  predicate IsIssued(s: State, id: string, selection: Selection, settings: Settings) {
    && s.active == Some(id) && s.session == Translating(selection, id)
    && id in s.calls && s.calls[id] == Call(selection, settings, Open, false, false, false, false)
    && s.shown == Some(Card(selection.selectionId, selection.text, selection.source, selection.confidence,
       TranslatingCard(id)))
  }

  /** Starting a request when nothing is waited for. */
  lemma StartIssues(s: State, selection: Selection, id: string, settings: Settings)
    requires s.bounds.Some?
    ensures var t := ExecuteAll(s.(session := Translating(selection, id)), StartTranslating(selection, id), settings);
            IsIssued(t, id, selection, settings) && t.calls == s.calls[id := t.calls[id]] && t.bounds == s.bounds
  {
    ExecuteTwo(s.(session := Translating(selection, id)), Present(BaseCard(selection, TranslatingCard(id))),
               Request(selection, id), settings);
  }

  /**
   * A selection, in any run: if translation is allowed in that turn and the new id fits the pattern, its own request is
   * issued and active, with these settings and its translating card; otherwise no call is added and the card shows the
   * source alone. The bounds are the new ones in both cases.
   */
  lemma SelectionIsTranslated(
    providerId: string, actions: seq<Action>, selection: Selection, bounds: nat, settings: Settings, id: string)
    requires id !in Run(providerId, INITIAL, actions).calls
    ensures var s := Run(providerId, INITIAL, actions);
            var t := Step(providerId, s, HandleSelection(selection, bounds, settings, id));
            && t.bounds == Some(bounds)
            && if IsAllowed(providerId, settings) && IsRequestId(id) then
                 IsIssued(t, id, selection, settings) && t.calls.Keys == s.calls.Keys + {id}
               else
                 && t.session == SourceOnly(selection) && t.calls.Keys == s.calls.Keys
                 && t.shown == Some(Card(selection.selectionId, selection.text, selection.source,
                    selection.confidence, SourceCard))
  {
    hide Run;
    var s := Run(providerId, INITIAL, actions);
    var event := Received(selection, CanTranslate(providerId, settings),
                          if CanTranslate(providerId, settings) then Some(id) else None);
    var t := Next(s.session, event);
    hide ExecuteAll, Dismissed, IsRequestId, IsIssued;
    var begin := s.(bounds := Some(bounds), session := t.stage);
    DismissIs(begin, s.session, settings);
    DismissedLater(s, s.session, t.stage, Some(bounds));
    DismissedKeys(s, s.session);
    var gone := Dismissed(s, s.session).(bounds := Some(bounds));
    if t.stage.Translating? {
      ExecuteConcat(begin, DismissOf(s.session), StartTranslating(selection, id), settings);
      StartIssues(gone, selection, id, settings);
    } else {
      var present := Present(BaseCard(selection, SourceCard));
      ExecuteConcat(begin, DismissOf(s.session), [present], settings);
      ExecuteOne(gone.(session := t.stage), present, settings);
    }
  }

  lemma DismissedKeys(s: State, stage: Stage)
    ensures Dismissed(s, stage).calls.Keys == s.calls.Keys
  {
  }

  /** A retry of a failed request, allowed in that turn and under a new valid id, is issued for the same selection. */
  lemma RetryIsTranslated(providerId: string, actions: seq<Action>, settings: Settings, id: string)
    requires id !in Run(providerId, INITIAL, actions).calls
    ensures var s := Run(providerId, INITIAL, actions);
            var t := Step(providerId, s, Retry(settings, id));
            if s.session.Failed? && IsAllowed(providerId, settings) && IsRequestId(id) && s.session.requestId != id then
              IsIssued(t, id, s.session.selection, settings) && t.calls.Keys == s.calls.Keys + {id}
            else t == s
  {
    RunKeeps(providerId, INITIAL, actions);
    hide Run;
    var s := Run(providerId, INITIAL, actions);
    hide ExecuteAll, IsRequestId, IsIssued, CallFits, CardOf;
    if s.session.Failed? && CanTranslate(providerId, settings) {
      if IsRequestId(id) && s.session.requestId != id {
        StartIssues(s, s.session.selection, id, settings);
      } else {
        assert Next(s.session, RetryRequested(id)) == Transition(s.session, []);
        NothingExecuted(s, settings);
      }
    }
  }

  lemma NothingExecuted(s: State, settings: Settings)
    ensures ExecuteAll(s, [], settings) == s
  {
  }

  /** Dismissing leaves no session, no card and no request that is not over. */
  lemma DismissalIsDone(providerId: string, actions: seq<Action>, id: string)
    ensures var s := Run(providerId, INITIAL, actions);
            var t := Step(providerId, s, Dismiss);
            && t.session == Nothing && t.shown == None && t.bounds == None && t.calls.Keys == s.calls.Keys
            && (id in t.calls ==> t.calls[id].aborted || t.calls[id].reacted)
            && (IsWaitedFor(s, id) && id in s.calls && s.calls[id].race.Open? ==>
                  t.calls[id].race == Aborted(Failure(id, s.session.selection.selectionId, "cancelled", false, None)))
  {
    RunKeeps(providerId, INITIAL, actions);
    hide Run;
    var s := Run(providerId, INITIAL, actions);
    DismissKeeps(providerId, s);
    DismissIs(s.(session := Nothing), s.session, NO_SETTINGS);
    DismissedKeys(s.(session := Nothing), s.session);
    var t := Step(providerId, s, Dismiss);
    DismissedLater(s, s.session, Nothing, s.bounds);
    DismissedIsOver(providerId, s, Nothing);
    hide ExecuteAll, Dismissed, CardOf;
    if id in t.calls { assert CallFits(providerId, t, id); }
  }

  /**
   * A request that is waited for and still undecided: whatever its provider then answers is what is shown once the
   * answer is heard, and when its deadline passes instead, a retryable network failure.
   */
  lemma AnswerArrives(providerId: string, actions: seq<Action>, id: string, outcome: Outcome)
    requires var s := Run(providerId, INITIAL, actions); IsWaitedFor(s, id) && id in s.calls && s.calls[id].race.Open?
    ensures var s := Run(providerId, INITIAL, actions);
            var heard := Step(providerId, Step(providerId, s, Settle(id, outcome)), React(id));
            var late := Step(providerId, Step(providerId, s, Deadline(id)), React(id));
            && heard.shown == CardOf(heard.session)
            && IsAnswerOf(heard.session, s.calls[id].(race := Answered(outcome)), id)
            && late.shown == CardOf(late.session)
            && late.session == Failed(s.session.selection, id,
                                      Failure(id, s.session.selection.selectionId, "network-unavailable", true, None))
  {
    RunKeeps(providerId, INITIAL, actions);
    hide Run;
    var s := Run(providerId, INITIAL, actions);
    assert CallFits(providerId, s, id);
    var settled, expired := Step(providerId, s, Settle(id, outcome)), Step(providerId, s, Deadline(id));
    SettleKeeps(providerId, s, id, outcome);
    DeadlineKeeps(providerId, s, id);
    hide Invariant, Apply, CardOf;
    AwaitedAnswer(providerId, settled, id);
    AwaitedAnswer(providerId, expired, id);
  }

  lemma {:induction false} ExecuteKeepsSession(s: State, effects: seq<Effect>, settings: Settings)
    ensures ExecuteAll(s, effects, settings).session == s.session
            && s.calls.Keys <= ExecuteAll(s, effects, settings).calls.Keys
    decreases |effects|
  {
    if effects != [] { ExecuteKeepsSession(Execute(s, effects[0], settings), effects[1..], settings); }
  }

  /** A request the session stopped waiting for is never waited for again. */
  lemma StepForgets(providerId: string, s: State, a: Action, id: string)
    requires id in s.calls && !IsWaitedFor(s, id)
    ensures id in Step(providerId, s, a).calls && !IsWaitedFor(Step(providerId, s, a), id)
  {
    hide ExecuteAll, Execute, IsRequestId;
    if Enabled(s, a) {
      match a {
        case HandleSelection(selection, bounds, settings, newId) =>
          var allowed := CanTranslate(providerId, settings);
          var t := Next(s.session, Received(selection, allowed, if allowed then Some(newId) else None));
          ExecuteKeepsSession(s.(bounds := Some(bounds), session := t.stage), t.effects, settings);
        case Retry(settings, newId) =>
          var t := Next(s.session, RetryRequested(newId));
          ExecuteKeepsSession(s.(session := t.stage), t.effects, settings);
        case Dismiss => ExecuteKeepsSession(s.(session := Nothing), DismissOf(s.session), NO_SETTINGS);
        case React(other) =>
          var marked := MarkReacted(s, other);
          var t := Next(s.session, Reaction(s.calls[other], other));
          ExecuteKeepsSession(marked.(session := t.stage), t.effects, NO_SETTINGS);
        case _ =>
      }
    }
  }

  lemma {:induction false} ForgottenStaysForgotten(providerId: string, s: State, actions: seq<Action>, id: string)
    requires id in s.calls && !IsWaitedFor(s, id)
    ensures id in Run(providerId, s, actions).calls && !IsWaitedFor(Run(providerId, s, actions), id)
    decreases |actions|
  {
    hide Step;
    if actions != [] {
      StepForgets(providerId, s, actions[0], id);
      ForgottenStaysForgotten(providerId, Step(providerId, s, actions[0]), actions[1..], id);
    }
  }

  // ----- A race is decided once -----

  /** The effects ask for no such request. */
  predicate AskNot(effects: seq<Effect>, id: string) {
    forall k | 0 <= k < |effects| :: effects[k].Request? ==> effects[k].requestId != id
  }

  predicate IsDecided(s: State, id: string, race: Race) {
    id in s.calls && s.calls[id].race == race && !race.Open?
  }

  lemma {:induction false} ExecuteKeepsRaces(s: State, effects: seq<Effect>, settings: Settings, id: string, race: Race)
    requires IsDecided(s, id, race) && AskNot(effects, id)
    ensures IsDecided(ExecuteAll(s, effects, settings), id, race)
    decreases |effects|
  {
    if effects != [] {
      assert effects[0].Request? ==> effects[0].requestId != id;
      ExecuteKeepsRaces(Execute(s, effects[0], settings), effects[1..], settings, id, race);
    }
  }

  lemma ApplyKeepsRaces(s: State, event: Event, settings: Settings, id: string, race: Race)
    requires IsDecided(s, id, race)
    requires event.Received? ==> event.id != Some(id)
    requires event.RetryRequested? ==> event.newId != id
    ensures IsDecided(Apply(s, event, settings), id, race)
  {
    var t := Next(s.session, event);
    assert AskNot(t.effects, id) by { hide IsRequestId; }
    hide Next;
    ExecuteKeepsRaces(s.(session := t.stage), t.effects, settings, id, race);
  }

  lemma StepKeepsRaces(providerId: string, s: State, a: Action, id: string, race: Race)
    requires IsDecided(s, id, race)
    ensures IsDecided(Step(providerId, s, a), id, race)
  {
    hide Apply, CanTranslate;
    match a {
      case HandleSelection(selection, bounds, settings, newId) =>
        if Enabled(s, a) {
          var allowed := CanTranslate(providerId, settings);
          var event := Received(selection, allowed, if allowed then Some(newId) else None);
          ApplyKeepsRaces(s.(bounds := Some(bounds)), event, settings, id, race);
        }
      case Retry(settings, newId) =>
        if Enabled(s, a) { ApplyKeepsRaces(s, RetryRequested(newId), settings, id, race); }
      case Dismiss => ApplyKeepsRaces(s, DismissSession, NO_SETTINGS, id, race);
      case React(other) =>
        if Enabled(s, a) {
          ApplyKeepsRaces(MarkReacted(s, other), Reaction(s.calls[other], other), NO_SETTINGS, id, race);
        }
      case _ =>
    }
  }

  /** Whatever happens after the race of a request is decided, its outcome stays. */
  lemma {:induction false} DecidedStays(providerId: string, s: State, actions: seq<Action>, id: string, race: Race)
    requires IsDecided(s, id, race)
    ensures IsDecided(Run(providerId, s, actions), id, race)
    decreases |actions|
  {
    hide Step, IsDecided;
    if actions != [] {
      StepKeepsRaces(providerId, s, actions[0], id, race);
      DecidedStays(providerId, Step(providerId, s, actions[0]), actions[1..], id, race);
    }
  }

  // ----- The active request -----

  predicate ActiveIsOpen(s: State) {
    s.active.Some? ==> s.active.value in s.calls && !s.calls[s.active.value].finished
  }

  lemma {:induction false} ExecuteKeepsOpen(s: State, effects: seq<Effect>, settings: Settings)
    requires ActiveIsOpen(s)
    ensures ActiveIsOpen(ExecuteAll(s, effects, settings))
    decreases |effects|
  {
    if effects != [] { ExecuteKeepsOpen(Execute(s, effects[0], settings), effects[1..], settings); }
  }

  lemma StepKeepsOpen(providerId: string, s: State, a: Action)
    requires ActiveIsOpen(s)
    ensures ActiveIsOpen(Step(providerId, s, a))
    ensures a.Finally? && Enabled(s, a) ==> Step(providerId, s, a).calls[a.id].finished
  {
    hide ExecuteAll, Execute, Next, CanTranslate;
    match a {
      case HandleSelection(selection, bounds, settings, id) =>
        var allowed := CanTranslate(providerId, settings);
        var t := Next(s.session, Received(selection, allowed, if allowed then Some(id) else None));
        ExecuteKeepsOpen(s.(bounds := Some(bounds), session := t.stage), t.effects, settings);
      case Retry(settings, id) =>
        var t := Next(s.session, RetryRequested(id));
        ExecuteKeepsOpen(s.(session := t.stage), t.effects, settings);
      case Dismiss =>
        var t := Next(s.session, DismissSession);
        ExecuteKeepsOpen(s.(session := t.stage), t.effects, NO_SETTINGS);
      case React(id) =>
        if Enabled(s, a) {
          var t := Next(s.session, Reaction(s.calls[id], id));
          ExecuteKeepsOpen(MarkReacted(s, id).(session := t.stage), t.effects, NO_SETTINGS);
        }
      case _ =>
    }
  }

  /** In every run the active request is one whose finally block has not run: none stays active for ever. */
  lemma {:induction false} ActiveIsUnfinished(providerId: string, s: State, actions: seq<Action>)
    requires ActiveIsOpen(s)
    ensures ActiveIsOpen(Run(providerId, s, actions))
    decreases |actions|
  {
    hide Step, ActiveIsOpen;
    if actions != [] {
      StepKeepsOpen(providerId, s, actions[0]);
      ActiveIsUnfinished(providerId, Step(providerId, s, actions[0]), actions[1..]);
    }
  }

  /** After a run, a clean-up leaves the request finished and not active, and every other as it was. */
  lemma CleanedUp(providerId: string, actions: seq<Action>, id: string, other: string)
    requires var s := Run(providerId, INITIAL, actions); id in s.calls && s.calls[id].reacted && !s.calls[id].finished
    ensures var s := Run(providerId, INITIAL, actions);
            var t := Step(providerId, s, Finally(id));
            && t.active != Some(id) && t.calls[id] == s.calls[id].(finished := true)
            && (other != id ==>
                  && (t.active == Some(other) <==> s.active == Some(other))
                  && (other in t.calls <==> other in s.calls)
                  && (other in s.calls ==> t.calls[other] == s.calls[other]))
            && (s.active == Some(other) ==> other in s.calls && !s.calls[other].finished)
  {
    ActiveIsUnfinished(providerId, INITIAL, actions);
    hide Run;
  }

  // ----- The controller -----

  /** The controller with its fields updated in place. calls holds what the closures of requestTranslation hold. */
  class Controller {
    const providerId: string
    var session: Stage
    var currentBounds: Option<nat>
    var activeRequest: Option<string>
    var calls: map<string, Call>
    var shown: Option<Card>

    function View(): State
      reads this
    {
      State(session, currentBounds, activeRequest, calls, shown)
    }

    constructor (providerId: string)
      ensures this.providerId == providerId && View() == INITIAL
    {
      this.providerId := providerId;
      session, currentBounds, activeRequest, calls, shown := Nothing, None, None, map[], None;
    }

    method AbortCall(id: string)
      requires id in calls
      modifies this`calls
      ensures View() == old(View()).(calls := old(calls)[id := Abort(old(calls)[id], id)])
    {
      var call := calls[id];
      if !call.aborted {
        var failure := if call.timedOut then TimeoutFailure(id, call.selection.selectionId)
                       else CancelledFailure(id, call.selection.selectionId);
        call := call.(aborted := true);
        if call.race.Open? && !call.finished { call := call.(race := Aborted(failure)); }
      }
      calls := calls[id := call];
    }

    method ExecuteEffect(effect: Effect, settings: Settings)
      modifies this`activeRequest, this`calls, this`shown
      ensures View() == Execute(old(View()), effect, settings)
    {
      match effect {
        case Cancel(id) =>
          if activeRequest == Some(id) {
            if id in calls { AbortCall(id); }
            activeRequest := None;
          }
        case Request(selection, id) =>
          activeRequest := Some(id);
          calls := calls[id := Call(selection, settings, Open, false, false, false, false)];
        case Present(card) => if currentBounds.Some? { shown := Some(card); }
        case DismissCard => shown := None;
      }
    }

    method ApplyTransition(transition: Transition, settings: Settings)
      modifies this`session, this`activeRequest, this`calls, this`shown
      ensures View() == ExecuteAll(old(View()).(session := transition.stage), transition.effects, settings)
    {
      hide Execute;
      session := transition.stage;
      var effects := transition.effects;
      var i := 0;
      assert effects[0..] == effects;
      while i < |effects|
        invariant i <= |effects| && currentBounds == old(currentBounds)
        invariant ExecuteAll(View(), effects[i..], settings)
               == ExecuteAll(old(View()).(session := transition.stage), effects, settings)
      {
        assert effects[i..][1..] == effects[i + 1..];
        ExecuteEffect(effects[i], settings);
        i := i + 1;
      }
    }

    method OnSelection(selection: Selection, bounds: nat, settings: Settings, newId: string)
      requires newId !in calls
      modifies this
      ensures View() == Step(providerId, old(View()), HandleSelection(selection, bounds, settings, newId))
    {
      currentBounds := Some(bounds);
      var allowed := CanTranslate(providerId, settings);
      ApplyTransition(Next(session, Received(selection, allowed, if allowed then Some(newId) else None)), settings);
    }

    method OnRetry(settings: Settings, newId: string)
      requires newId !in calls
      modifies this
      ensures View() == Step(providerId, old(View()), Retry(settings, newId))
    {
      if !session.Failed? || !CanTranslate(providerId, settings) { return; }
      ApplyTransition(Next(session, RetryRequested(newId)), settings);
    }

    method OnDismiss()
      modifies this
      ensures View() == Step(providerId, old(View()), Dismiss)
    {
      ApplyTransition(Next(session, DismissSession), NO_SETTINGS);
      currentBounds := None;
    }

    method OnDeadline(id: string)
      requires id in calls && !calls[id].timedOut && !calls[id].finished
      modifies this`calls
      ensures View() == Step(providerId, old(View()), Deadline(id))
    {
      calls := calls[id := calls[id].(timedOut := true)];
      AbortCall(id);
    }

    /** The then and catch callbacks of the race. */
    method OnRaceDecided(id: string)
      requires id in calls && !calls[id].race.Open? && !calls[id].reacted
      modifies this
      ensures View() == Step(providerId, old(View()), React(id))
    {
      var call := calls[id];
      calls := calls[id := call.(reacted := true)];
      ApplyTransition(Next(session, Reaction(call, id)), NO_SETTINGS);
    }

    method OnFinally(id: string)
      requires id in calls && calls[id].reacted && !calls[id].finished
      modifies this
      ensures View() == Step(providerId, old(View()), Finally(id))
    {
      calls := calls[id := calls[id].(finished := true)];
      if activeRequest == Some(id) { activeRequest := None; }
    }
  }
}
