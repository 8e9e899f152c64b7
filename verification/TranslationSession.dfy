/**
 * The latest-wins translation reducer of packages/application/src/translation-session.ts and the application reducer
 * around it (packages/application/src/selection-state-machine.ts), with what their effect logs mean over whole runs.
 */
module TranslationSession {
  import opened Basics

  datatype Selection = Selection(selectionId: string, text: string, source: string, confidence: string)

  datatype Translation = Translation(
    requestId: string, selectionId: string, translatedText: string, targetLanguage: string, attribution: string,
    fromCache: bool, detectedSourceLanguage: Option<string>)

  datatype Failure = Failure(requestId: string, selectionId: string, code: string, retryable: bool,
    retryAfterMs: Option<nat>)

  datatype Stage =
    | Nothing
    | SourceOnly(selection: Selection)
    | Translating(selection: Selection, requestId: string)
    | Translated(selection: Selection, requestId: string, translation: Translation)
    | Failed(selection: Selection, requestId: string, failure: Failure)

  datatype Event =
    | Received(selection: Selection, enabled: bool, id: Option<string>)
    | Succeeded(result: Translation)
    | Failing(reason: Failure)
    | RetryRequested(newId: string)
    | CancelSession
    | DismissSession

  datatype CardKind =
    | SourceCard
    | TranslatingCard(requestId: string)
    | TranslatedCard(requestId: string, translatedText: string, targetLanguage: string, attribution: string,
                     fromCache: bool, detectedSourceLanguage: Option<string>)
    | FailedCard(requestId: string, code: string, retryable: bool, retryAfterMs: Option<nat>)

  datatype Card = Card(selectionId: string, sourceText: string, source: string, confidence: string, kind: CardKind)

  datatype Effect =
    | Request(selection: Selection, requestId: string)
    | Cancel(requestId: string)
    | Present(card: Card)
    | DismissCard

  datatype Transition = Transition(stage: Stage, effects: seq<Effect>)

  // ----- The reducer -----

  predicate IsIdStart(c: char) {
    'A' <= c <= 'Z' || 'a' <= c <= 'z' || '0' <= c <= '9'
  }

  predicate IsRequestId(id: string) {
    && 1 <= |id| <= 128 && IsIdStart(id[0])
    && forall k | 0 <= k < |id| :: IsIdStart(id[k]) || id[k] == '.' || id[k] == '_' || id[k] == ':' || id[k] == '-'
  }

  function BaseCard(s: Selection, kind: CardKind): Card {
    Card(s.selectionId, s.text, s.source, s.confidence, kind)
  }

  function TranslatedKind(t: Translation): CardKind {
    TranslatedCard(t.requestId, t.translatedText, t.targetLanguage, t.attribution, t.fromCache,
      t.detectedSourceLanguage)
  }

  function FailedKind(f: Failure): CardKind {
    FailedCard(f.requestId, f.code, f.retryable, f.retryAfterMs)
  }

  function CancelOf(stage: Stage): seq<Effect> {
    if stage.Translating? then [Cancel(stage.requestId)] else []
  }

  function DismissOf(stage: Stage): seq<Effect> {
    if stage.Nothing? then [] else CancelOf(stage) + [DismissCard]
  }

  /** The event answers the request the session waits for: same request, same selection. */
  predicate Answers(stage: Stage, requestId: string, selectionId: string) {
    stage.Translating? && stage.selection.selectionId == selectionId && stage.requestId == requestId
  }

  function StartTranslating(selection: Selection, id: string): seq<Effect> {
    [Present(BaseCard(selection, TranslatingCard(id))), Request(selection, id)]
  }

  function Next(stage: Stage, event: Event): Transition {
    match event
    case Received(selection, enabled, id) =>
      if !enabled || id.None? || !IsRequestId(id.value) then
        Transition(SourceOnly(selection), DismissOf(stage) + [Present(BaseCard(selection, SourceCard))])
      else Transition(Translating(selection, id.value), DismissOf(stage) + StartTranslating(selection, id.value))
    case Succeeded(result) =>
      if !Answers(stage, result.requestId, result.selectionId) then Transition(stage, [])
      else Transition(Translated(stage.selection, stage.requestId, result),
        [Present(BaseCard(stage.selection, TranslatedKind(result)))])
    case Failing(failure) =>
      if !Answers(stage, failure.requestId, failure.selectionId) then Transition(stage, [])
      else if failure.code == "cancelled" then Transition(SourceOnly(stage.selection),
        [Present(BaseCard(stage.selection, SourceCard))])
      else Transition(Failed(stage.selection, stage.requestId, failure),
        [Present(BaseCard(stage.selection, FailedKind(failure)))])
    case RetryRequested(id) =>
      if !stage.Failed? || stage.requestId == id || !IsRequestId(id) then Transition(stage, [])
      else Transition(Translating(stage.selection, id), StartTranslating(stage.selection, id))
    case CancelSession =>
      if stage.Nothing? then Transition(stage, [])
      else Transition(SourceOnly(stage.selection), CancelOf(stage) + [Present(BaseCard(stage.selection, SourceCard))])
    case DismissSession => Transition(Nothing, DismissOf(stage))
  }

  // ----- What a state means -----

  /** The card a state determines. */
  function CardOf(stage: Stage): Option<Card> {
    match stage
    case Nothing => None
    case SourceOnly(s) => Some(BaseCard(s, SourceCard))
    case Translating(s, id) => Some(BaseCard(s, TranslatingCard(id)))
    case Translated(s, _, translation) => Some(BaseCard(s, TranslatedKind(translation)))
    case Failed(s, _, failure) => Some(BaseCard(s, FailedKind(failure)))
  }

  /** A request for a selection. */
  datatype Waiting = Waiting(selection: Selection, requestId: string)

  function WaitingOf(stage: Stage): Option<Waiting> {
    if stage.Translating? then Some(Waiting(stage.selection, stage.requestId)) else None
  }

  // ----- What a log means -----

  /**
   * A reader of the log who knows nothing of the reducer: the card on screen, the request outstanding, and whether the
   * log made sense so far: no request while one is outstanding, no cancel but of the outstanding one, no dismissal of
   * a card that is not there.
   */
  datatype Ledger = Ledger(card: Option<Card>, outstanding: Option<Waiting>, sensible: bool)

  const BLANK := Ledger(None, None, true)

  /** The outstanding request is this one, for this selection. */
  predicate Awaits(l: Ledger, selectionId: string, requestId: string) {
    l.outstanding.Some? && l.outstanding.value.selection.selectionId == selectionId
    && l.outstanding.value.requestId == requestId
  }

  /** An answer to the outstanding request ends it. */
  function Hear(l: Ledger, event: Event): Ledger {
    match event
    case Succeeded(r) => if Awaits(l, r.selectionId, r.requestId) then l.(outstanding := None) else l
    case Failing(f) => if Awaits(l, f.selectionId, f.requestId) then l.(outstanding := None) else l
    case _ => l
  }

  function Note(l: Ledger, effect: Effect): Ledger {
    match effect
    case Present(card) => l.(card := Some(card))
    case DismissCard => l.(card := None, sensible := l.sensible && l.card.Some?)
    case Request(selection, id) =>
      l.(outstanding := Some(Waiting(selection, id)), sensible := l.sensible && l.outstanding.None?)
    case Cancel(id) =>
      l.(outstanding := None, sensible := l.sensible && l.outstanding.Some? && l.outstanding.value.requestId == id)
  }

  function NoteAll(l: Ledger, effects: seq<Effect>): Ledger
    decreases |effects|
  {
    if effects == [] then l else NoteAll(Note(l, effects[0]), effects[1..])
  }

  lemma {:induction false} NoteConcat(l: Ledger, a: seq<Effect>, b: seq<Effect>)
    ensures NoteAll(l, a + b) == NoteAll(NoteAll(l, a), b)
    decreases |a|
  {
    hide Note;
    if a == [] {
      assert a + b == b;
    } else {
      assert (a + b)[1..] == a[1..] + b;
      NoteConcat(Note(l, a[0]), a[1..], b);
    }
  }

  function Ideal(stage: Stage): Ledger {
    Ledger(CardOf(stage), WaitingOf(stage), true)
  }

  /** Run of the reducer beside the log reader. */
  function Stages(stage: Stage, events: seq<Event>): Stage
    decreases |events|
  {
    if events == [] then stage else Stages(Next(stage, events[0]).stage, events[1..])
  }

  function Replay(l: Ledger, stage: Stage, events: seq<Event>): Ledger
    decreases |events|
  {
    if events == [] then l
    else
      var t := Next(stage, events[0]);
      Replay(NoteAll(Hear(l, events[0]), t.effects), t.stage, events[1..])
  }

  lemma NoteTwo(l: Ledger, a: Effect, b: Effect)
    ensures NoteAll(l, [a, b]) == Note(Note(l, a), b)
  {
    assert [a, b][1..] == [b] && [b][1..] == [];
    assert NoteAll(Note(l, a), [b]) == NoteAll(Note(Note(l, a), b), []);
  }

  lemma NoteDismiss(stage: Stage)
    ensures NoteAll(Ideal(stage), DismissOf(stage)) == BLANK
  {
    if stage.Translating? {
      assert DismissOf(stage) == [Cancel(stage.requestId), DismissCard];
      NoteTwo(Ideal(stage), Cancel(stage.requestId), DismissCard);
    } else if !stage.Nothing? {
      assert DismissOf(stage) == [DismissCard];
    }
  }

  lemma NoteCancel(stage: Stage)
    ensures NoteAll(Ideal(stage), CancelOf(stage)) == Ideal(stage).(outstanding := None)
  {
  }

  lemma NoteStart(l: Ledger, selection: Selection, id: string)
    requires l.outstanding.None? && l.sensible
    ensures NoteAll(l, StartTranslating(selection, id)) == Ideal(Translating(selection, id))
  {
    NoteTwo(l, Present(BaseCard(selection, TranslatingCard(id))), Request(selection, id));
  }

  lemma NoteOne(l: Ledger, effect: Effect)
    ensures NoteAll(l, [effect]) == Note(l, effect)
  {
    assert [effect][1..] == [];
  }

  /** One event keeps the reader's ledger equal to what the state says. */
  lemma NextIsIdeal(stage: Stage, event: Event)
    ensures var t := Next(stage, event); NoteAll(Hear(Ideal(stage), event), t.effects) == Ideal(t.stage)
  {
    hide IsRequestId, NoteAll;
    NothingNoted(Hear(Ideal(stage), event));
    match event {
      case Received(selection, enabled, id) =>
        NoteDismiss(stage);
        var present := Present(BaseCard(selection, SourceCard));
        NoteConcat(Ideal(stage), DismissOf(stage), [present]);
        NoteOne(BLANK, present);
        if id.Some? {
          NoteConcat(Ideal(stage), DismissOf(stage), StartTranslating(selection, id.value));
          NoteStart(BLANK, selection, id.value);
        }
      case CancelSession =>
        NoteCancel(stage);
        if !stage.Nothing? {
          var present := Present(BaseCard(stage.selection, SourceCard));
          NoteConcat(Ideal(stage), CancelOf(stage), [present]);
          NoteOne(Ideal(stage).(outstanding := None), present);
        }
      case DismissSession => NoteDismiss(stage);
      case RetryRequested(id) => if stage.Failed? { NoteStart(Ideal(stage), stage.selection, id); }
      case Succeeded(r) =>
        if stage.Translating? {
          NoteOne(Ideal(stage).(outstanding := None), Present(BaseCard(stage.selection, TranslatedKind(r))));
        }
      case Failing(f) =>
        if stage.Translating? {
          NoteOne(Ideal(stage).(outstanding := None), Present(BaseCard(stage.selection, SourceCard)));
          NoteOne(Ideal(stage).(outstanding := None), Present(BaseCard(stage.selection, FailedKind(f))));
        }
    }
  }

  lemma NothingNoted(l: Ledger)
    ensures NoteAll(l, []) == l
  {
  }

  /**
   * Over any events, reading the log back gives the card the final state determines; at most one request is ever
   * outstanding, it is outstanding exactly while the stage is translating, and each cancel names it.
   */
  lemma {:induction false} LogTellsTheState(stage: Stage, events: seq<Event>)
    ensures Replay(Ideal(stage), stage, events) == Ideal(Stages(stage, events))
    decreases |events|
  {
    hide Next, Hear, NoteAll, Ideal;
    if events != [] {
      NextIsIdeal(stage, events[0]);
      LogTellsTheState(Next(stage, events[0]).stage, events[1..]);
    }
  }

  lemma LogFromTheStart(events: seq<Event>)
    ensures var l, stage := Replay(BLANK, Nothing, events), Stages(Nothing, events);
            && l.sensible && l.card == CardOf(stage) && (l.outstanding.Some? <==> stage.Translating?)
            && (stage.Translating? ==> l.outstanding == Some(Waiting(stage.selection, stage.requestId)))
  {
    LogTellsTheState(Nothing, events);
    assert Ideal(Nothing) == BLANK;
  }

  // ----- What the user is to see -----

  /** randomUUID: 36 lower-case hexadecimal digits and hyphens. */
  predicate IsUuid(id: string) {
    && |id| == 36
    && forall k | 0 <= k < 36 ::
         if k == 8 || k == 13 || k == 18 || k == 23 then id[k] == '-' else '0' <= id[k] <= '9' || 'a' <= id[k] <= 'f'
  }

  /** The ids taken are exactly the identifiers. */
  lemma IdsAreIdentifiers(id: string)
    ensures IsRequestId(id) <==> IsIdentifier(id)
  {
    hide IsAlphanumeric;
    forall c ensures IsIdStart(c) <==> IsAlphanumeric(c) { AlphanumericsAre(c); }
    hide IsIdStart;
    if |id| >= 1 {
      assert forall k | 1 <= k < |id| :: id[1..][k - 1] == id[k] && id[k] in id[1..];
    }
  }

  lemma UuidIsRequestId(id: string)
    requires IsUuid(id)
    ensures IsRequestId(id)
  {
  }

  function Shown(card: Card, kind: CardKind): Option<Card> {
    Some(card.(kind := kind))
  }

  /** The selection a card is about. */
  function SelectionOf(card: Card): Selection {
    Selection(card.selectionId, card.sourceText, card.source, card.confidence)
  }

  /**
   * The session as its user sees it, with no states behind: a card, and at most one request outstanding. A selection
   * replaces both. An answer counts only for the outstanding request. A retry is for the card that failed.
   */
  function Watch(l: Ledger, event: Event): Ledger {
    match event
    case Received(selection, enabled, id) =>
      var starts := enabled && id.Some? && IsRequestId(id.value);
      Ledger(Some(Card(selection.selectionId, selection.text, selection.source, selection.confidence,
                       if starts then TranslatingCard(id.value) else SourceCard)),
             if starts then Some(Waiting(selection, id.value)) else None, true)
    case Succeeded(r) =>
      if !Awaits(l, r.selectionId, r.requestId) || l.card.None? then l
      else Ledger(Shown(l.card.value, TranslatedCard(r.requestId, r.translatedText, r.targetLanguage, r.attribution,
                                                     r.fromCache, r.detectedSourceLanguage)), None, true)
    case Failing(f) =>
      if !Awaits(l, f.selectionId, f.requestId) || l.card.None? then l
      else Ledger(Shown(l.card.value, if f.code == "cancelled" then SourceCard
                                      else FailedCard(f.requestId, f.code, f.retryable, f.retryAfterMs)), None, true)
    case RetryRequested(id) =>
      if l.card.None? || !l.card.value.kind.FailedCard? || l.card.value.kind.requestId == id || !IsRequestId(id) then l
      else Ledger(Shown(l.card.value, TranslatingCard(id)), Some(Waiting(SelectionOf(l.card.value), id)), true)
    case CancelSession => if l.card.None? then l else Ledger(Shown(l.card.value, SourceCard), None, true)
    case DismissSession => BLANK
  }

  function WatchAll(l: Ledger, events: seq<Event>): Ledger
    decreases |events|
  {
    if events == [] then l else WatchAll(Watch(l, events[0]), events[1..])
  }

  /** A failed stage names the request that failed. */
  predicate StageFits(stage: Stage) {
    stage.Failed? ==> stage.failure.requestId == stage.requestId
  }

  lemma NextIsWatched(stage: Stage, event: Event)
    requires StageFits(stage)
    ensures StageFits(Next(stage, event).stage) && Ideal(Next(stage, event).stage) == Watch(Ideal(stage), event)
  {
    hide IsRequestId;
  }

  /** Whatever happens, the log of the effects tells what the user is to see. */
  lemma {:induction false} LogIsWatched(stage: Stage, events: seq<Event>)
    requires StageFits(stage)
    ensures Replay(Ideal(stage), stage, events) == WatchAll(Ideal(stage), events)
    decreases |events|
  {
    hide Next, Hear, NoteAll, Ideal, Watch, StageFits;
    if events != [] {
      NextIsIdeal(stage, events[0]);
      NextIsWatched(stage, events[0]);
      LogIsWatched(Next(stage, events[0]).stage, events[1..]);
    }
  }

  /** Over any events from the start, effect log and user's view agree. */
  lemma TheUserSeesIt(events: seq<Event>)
    ensures Replay(BLANK, Nothing, events) == WatchAll(BLANK, events)
  {
    assert Ideal(Nothing) == BLANK;
    LogIsWatched(Nothing, events);
  }

  lemma {:induction false} WatchLast(l: Ledger, events: seq<Event>, event: Event)
    ensures WatchAll(l, events + [event]) == Watch(WatchAll(l, events), event)
    decreases |events|
  {
    hide Watch;
    if events == [] {
      assert [event][1..] == [] && [] + [event] == [event];
      assert WatchAll(l, [event]) == WatchAll(Watch(l, event), []);
    } else {
      assert (events + [event])[1..] == events[1..] + [event];
      WatchLast(Watch(l, events[0]), events[1..], event);
    }
  }

  /**
   * After a selection, whatever came before it, exactly one request is outstanding if translation is enabled and the id
   * fits the pattern, and none otherwise. It is for this selection under this id, and the card says so.
   */
  lemma SelectionStarts(events: seq<Event>, selection: Selection, enabled: bool, id: Option<string>)
    ensures var l := Replay(BLANK, Nothing, events + [Received(selection, enabled, id)]);
            && (l.outstanding.Some? <==> enabled && id.Some? && IsRequestId(id.value))
            && (l.outstanding.Some? ==> l.outstanding == Some(Waiting(selection, id.value)))
            && l.card == Some(Card(selection.selectionId, selection.text, selection.source, selection.confidence,
                                   if l.outstanding.Some? then TranslatingCard(id.value) else SourceCard))
  {
    TheUserSeesIt(events + [Received(selection, enabled, id)]);
    WatchLast(BLANK, events, Received(selection, enabled, id));
    hide IsRequestId, Replay, WatchAll;
  }

  /**
   * After a retry, a request for the failed card's own selection is outstanding under the new id, if a card had failed
   * and the id is new and fits the pattern; otherwise nothing has changed.
   */
  lemma RetryStarts(events: seq<Event>, id: string)
    ensures var was, l := Replay(BLANK, Nothing, events), Replay(BLANK, Nothing, events + [RetryRequested(id)]);
            if was.card.Some? && was.card.value.kind.FailedCard? && was.card.value.kind.requestId != id
              && IsRequestId(id) then
              && l.outstanding == Some(Waiting(SelectionOf(was.card.value), id))
              && l.card == Some(was.card.value.(kind := TranslatingCard(id)))
            else l == was
  {
    TheUserSeesIt(events);
    TheUserSeesIt(events + [RetryRequested(id)]);
    WatchLast(BLANK, events, RetryRequested(id));
    hide IsRequestId, Replay, WatchAll;
  }

  // ----- The application reducer -----

  datatype Mode = Booting | Idle | Starting | Listening | Stopping | Faulted | ShuttingDown

  /** error: the last host error, None when there is none. */
  datatype App = App(
    mode: Mode, listeningRequested: bool, nativeReady: bool, translationEnabled: bool, active: Stage,
      error: Option<string>)

  datatype AppEvent =
    | NativeReady
    | NativeStarted
    | NativeStopped
    | NativeDisconnected
    | NativeError(code: string, recoverable: bool)
    | EnableListening
    | DisableListening
    | EnableTranslation
    | DisableTranslation
    | SelectionReceived(selection: Selection, id: Option<string>)
    | TranslationSucceeded(result: Translation)
    | TranslationFailed(reason: Failure)
    | TranslationRetry(newId: string)
    | SelectionDismissed
    | DisplayChanged
    | Shutdown

  datatype AppEffect = StartNative | StopNative | ShutdownNative | Reconnect | OfSession(effect: Effect)

  datatype AppTransition = AppTransition(app: App, effects: seq<AppEffect>)

  function InitialApp(listeningRequested: bool, translationEnabled: bool): App {
    App(Booting, listeningRequested, false, translationEnabled, Nothing, None)
  }

  function Lifted(effects: seq<Effect>): (r: seq<AppEffect>)
    ensures |r| == |effects| && forall k | 0 <= k < |r| :: r[k] == OfSession(effects[k])
  {
    seq(|effects|, k requires 0 <= k < |effects| => OfSession(effects[k]))
  }

  /** The session reducer applied to the active selection, and the native effects after its own. */
  function InSession(app: App, event: Event, native: seq<AppEffect>): AppTransition {
    var t := Next(app.active, event);
    AppTransition(app.(active := t.stage), Lifted(t.effects) + native)
  }

  function Outside(app: App, native: seq<AppEffect>): AppTransition {
    AppTransition(app, native)
  }

  function NextApp(app: App, event: AppEvent): AppTransition {
    if app.mode == ShuttingDown then Outside(app, [])
    else
      match event
      case NativeReady =>
        if app.listeningRequested then Outside(app.(mode := Starting, nativeReady := true, error := None),
          [StartNative])
        else Outside(app.(mode := Idle, nativeReady := true, error := None), [])
      case NativeStarted =>
        if !app.nativeReady || app.mode != Starting then Outside(app, [])
        else if app.listeningRequested then Outside(app.(mode := Listening), [])
        else Outside(app.(mode := Stopping), [StopNative])
      case NativeStopped =>
        if !app.nativeReady then Outside(app, [])
        else if app.listeningRequested then Outside(app.(mode := Starting), [StartNative])
        else Outside(app.(mode := Idle), [])
      case NativeDisconnected => InSession(app.(mode := Booting, nativeReady := false), DismissSession, [Reconnect])
      case NativeError(code, recoverable) =>
        if recoverable then Outside(app.(error := Some(code)), [])
        else InSession(app.(mode := Faulted, listeningRequested := false, error := Some(code)), DismissSession, [])
      case EnableListening =>
        if app.listeningRequested then Outside(app, [])
        else if app.nativeReady && (app.mode == Idle || app.mode == Faulted) then
          Outside(app.(mode := Starting, listeningRequested := true, error := None), [StartNative])
        else Outside(app.(listeningRequested := true), [])
      case DisableListening =>
        var running := app.nativeReady && (app.mode == Starting || app.mode == Listening);
        if !app.listeningRequested && (app.mode == Idle || app.mode == Stopping) then Outside(app, [])
        else InSession(app.(mode := if running then Stopping else Idle, listeningRequested := false), DismissSession,
                       if running then [StopNative] else [])
      case EnableTranslation => Outside(app.(translationEnabled := true), [])
      case DisableTranslation =>
        if !app.translationEnabled then Outside(app, [])
          else InSession(app.(translationEnabled := false), CancelSession, [])
      case SelectionReceived(selection, id) =>
        if app.mode != Listening || !app.listeningRequested then Outside(app, [])
        else InSession(app, Received(selection, app.translationEnabled, id), [])
      case TranslationSucceeded(result) => InSession(app, Succeeded(result), [])
      case TranslationFailed(failure) => InSession(app, Failing(failure), [])
      case TranslationRetry(id) =>
        if !app.translationEnabled || app.mode != Listening || !app.listeningRequested then Outside(app, [])
        else InSession(app, RetryRequested(id), [])
      case SelectionDismissed => InSession(app, DismissSession, [])
      case DisplayChanged => InSession(app, DismissSession, [])
      case Shutdown =>
        InSession(app.(mode := ShuttingDown, listeningRequested := false), DismissSession,
          if app.nativeReady then [ShutdownNative] else [])
  }

  function Apps(app: App, events: seq<AppEvent>): App
    decreases |events|
  {
    if events == [] then app else Apps(NextApp(app, events[0]).app, events[1..])
  }

  // ----- The log of the application -----

  /** The reader skips what is not about translation. */
  function SessionPart(effects: seq<AppEffect>): seq<Effect> {
    if effects == [] then []
    else (if effects[0].OfSession? then [effects[0].effect] else []) + SessionPart(effects[1..])
  }

  function HearApp(l: Ledger, event: AppEvent): Ledger {
    match event
    case TranslationSucceeded(r) => Hear(l, Succeeded(r))
    case TranslationFailed(f) => Hear(l, Failing(f))
    case _ => l
  }

  function ReplayApp(l: Ledger, app: App, events: seq<AppEvent>): Ledger
    decreases |events|
  {
    if events == [] then l
    else
      var t := NextApp(app, events[0]);
      ReplayApp(NoteAll(HearApp(l, events[0]), SessionPart(t.effects)), t.app, events[1..])
  }

  predicate IsNative(effects: seq<AppEffect>) {
    forall k | 0 <= k < |effects| :: !effects[k].OfSession?
  }

  lemma {:induction false} NoSessionPart(effects: seq<AppEffect>)
    requires IsNative(effects)
    ensures SessionPart(effects) == []
  {
    if effects != [] { NoSessionPart(effects[1..]); }
  }

  lemma {:induction false} LiftedPart(effects: seq<Effect>, native: seq<AppEffect>)
    requires IsNative(native)
    ensures SessionPart(Lifted(effects) + native) == effects
  {
    var all := Lifted(effects) + native;
    if effects == [] {
      assert all == native;
      NoSessionPart(native);
    } else {
      LiftedPart(effects[1..], native);
      assert all[1..] == Lifted(effects[1..]) + native;
    }
  }

  /** What the application keeps; an application that shuts down has no session left. */
  predicate AppFits(app: App) {
    && (app.mode == Starting || app.mode == Listening ==> app.nativeReady && app.listeningRequested)
    && (app.active.Translating? ==> app.translationEnabled)
    && (app.mode == ShuttingDown ==> app.active.Nothing?)
  }

  lemma InSessionIsIdeal(app: App, event: Event, native: seq<AppEffect>)
    requires IsNative(native)
    ensures var t := InSession(app, event, native);
            NoteAll(Hear(Ideal(app.active), event), SessionPart(t.effects)) == Ideal(t.app.active)
  {
    NextIsIdeal(app.active, event);
    LiftedPart(Next(app.active, event).effects, native);
  }

  lemma OutsideIsIdeal(app: App, native: seq<AppEffect>)
    requires IsNative(native)
    ensures NoteAll(Ideal(app.active), SessionPart(native)) == Ideal(app.active)
  {
    NoSessionPart(native);
  }

  lemma NextAppIsIdeal(app: App, event: AppEvent)
    requires AppFits(app)
    ensures var t := NextApp(app, event);
            AppFits(t.app) && NoteAll(HearApp(Ideal(app.active), event), SessionPart(t.effects)) == Ideal(t.app.active)
  {
    NextAppFits(app, event);
    var t := NextApp(app, event);
    hide NoteAll, SessionPart, Ideal, AppFits;
    if app.mode == ShuttingDown {
      NoAnswer(app, event);
      OutsideIsIdeal(app, []);
    } else {
      match event {
        case NativeDisconnected => InSessionIsIdeal(app.(mode := Booting, nativeReady := false), DismissSession,
          [Reconnect]);
        case NativeError(code, recoverable) =>
          OutsideIsIdeal(app.(error := Some(code)), []);
          InSessionIsIdeal(app.(mode := Faulted, listeningRequested := false, error := Some(code)), DismissSession, []);
        case DisableListening =>
          var running := app.nativeReady && (app.mode == Starting || app.mode == Listening);
          InSessionIsIdeal(app.(mode := if running then Stopping else Idle, listeningRequested := false),
            DismissSession,
                           if running then [StopNative] else []);
          OutsideIsIdeal(app, []);
        case DisableTranslation =>
          OutsideIsIdeal(app, []);
          InSessionIsIdeal(app.(translationEnabled := false), CancelSession, []);
        case SelectionReceived(selection, id) =>
          OutsideIsIdeal(app, []);
          InSessionIsIdeal(app, Received(selection, app.translationEnabled, id), []);
        case TranslationSucceeded(result) => InSessionIsIdeal(app, Succeeded(result), []);
        case TranslationFailed(failure) => InSessionIsIdeal(app, Failing(failure), []);
        case TranslationRetry(id) =>
          OutsideIsIdeal(app, []);
          InSessionIsIdeal(app, RetryRequested(id), []);
        case SelectionDismissed => InSessionIsIdeal(app, DismissSession, []);
        case DisplayChanged => InSessionIsIdeal(app, DismissSession, []);
        case Shutdown =>
          InSessionIsIdeal(app.(mode := ShuttingDown, listeningRequested := false), DismissSession,
                           if app.nativeReady then [ShutdownNative] else []);
        case _ => OutsideIsIdeal(t.app, t.effects);
      }
    }
  }

  lemma NoAnswer(app: App, event: AppEvent)
    requires AppFits(app) && app.mode == ShuttingDown
    ensures HearApp(Ideal(app.active), event) == Ideal(app.active)
  {
  }

  lemma NextAppFits(app: App, event: AppEvent)
    requires AppFits(app)
    ensures AppFits(NextApp(app, event).app)
  {
    hide IsRequestId;
  }

  lemma {:induction false} AppLogTellsTheState(app: App, events: seq<AppEvent>)
    requires AppFits(app)
    ensures AppFits(Apps(app, events)) && ReplayApp(Ideal(app.active), app, events) == Ideal(Apps(app, events).active)
    decreases |events|
  {
    hide NextApp, HearApp, NoteAll, Ideal, AppFits, SessionPart;
    if events != [] {
      NextAppIsIdeal(app, events[0]);
      AppLogTellsTheState(NextApp(app, events[0]).app, events[1..]);
    }
  }

  /**
   * From the start, whatever the host and the user do: the translation effects of the application still tell its card
   * and its one outstanding request, which exists exactly while translating and only with translation enabled.
   */
  lemma AppLogFromTheStart(listeningRequested: bool, translationEnabled: bool, events: seq<AppEvent>)
    ensures var app := InitialApp(listeningRequested, translationEnabled);
            var l, end := ReplayApp(BLANK, app, events), Apps(app, events);
            && l.sensible && l.card == CardOf(end.active) && l.outstanding == WaitingOf(end.active)
            && (l.outstanding.Some? ==> end.translationEnabled)
            && (end.mode == ShuttingDown ==> l.card.None? && l.outstanding.None?)
            && (end.mode == Starting || end.mode == Listening ==> end.nativeReady && end.listeningRequested)
  {
    var app := InitialApp(listeningRequested, translationEnabled);
    AppLogTellsTheState(app, events);
    assert Ideal(Nothing) == BLANK;
  }

  // ----- What the user sees of the application -----

  /** What an event of the application is to the session, if anything. */
  function Heard(app: App, event: AppEvent): Option<Event> {
    var listens := app.mode == Listening && app.listeningRequested;
    match event
    case SelectionReceived(selection, id) =>
      if listens then Some(Received(selection, app.translationEnabled, id)) else None
    case TranslationRetry(id) => if listens && app.translationEnabled then Some(RetryRequested(id)) else None
    case TranslationSucceeded(result) => Some(Succeeded(result))
    case TranslationFailed(failure) => Some(Failing(failure))
    case DisableTranslation => if app.translationEnabled then Some(CancelSession) else None
    case DisableListening =>
      if app.listeningRequested || (app.mode != Idle && app.mode != Stopping) then Some(DismissSession) else None
    case NativeError(_, recoverable) => if recoverable then None else Some(DismissSession)
    case NativeDisconnected => Some(DismissSession)
    case SelectionDismissed => Some(DismissSession)
    case DisplayChanged => Some(DismissSession)
    case Shutdown => Some(DismissSession)
    case _ => None
  }

  function WatchHeard(l: Ledger, heard: Option<Event>): Ledger {
    if heard.None? then l else Watch(l, heard.value)
  }

  lemma NextAppIsWatched(app: App, event: AppEvent)
    requires AppFits(app) && StageFits(app.active)
    ensures var t := NextApp(app, event);
            && StageFits(t.app.active)
            && Ideal(t.app.active) == if app.mode == ShuttingDown then Ideal(app.active)
                                      else WatchHeard(Ideal(app.active), Heard(app, event))
  {
    hide Next, Watch, Ideal, Lifted, StageFits;
    if Heard(app, event).Some? { NextIsWatched(app.active, Heard(app, event).value); }
  }

  lemma {:induction false} AppIsWatched(app: App, events: seq<AppEvent>)
    requires AppFits(app) && StageFits(app.active)
    ensures AppFits(Apps(app, events)) && StageFits(Apps(app, events).active)
    ensures ReplayApp(Ideal(app.active), app, events) == Ideal(Apps(app, events).active)
    decreases |events|
  {
    AppLogTellsTheState(app, events);
    hide NextApp, Ideal, AppFits, StageFits, Heard, NoteAll, HearApp, SessionPart;
    if events != [] {
      NextAppIsIdeal(app, events[0]);
      NextAppIsWatched(app, events[0]);
      AppIsWatched(NextApp(app, events[0]).app, events[1..]);
    }
  }

  lemma {:induction false} AppsLast(app: App, events: seq<AppEvent>, event: AppEvent)
    ensures Apps(app, events + [event]) == NextApp(Apps(app, events), event).app
    decreases |events|
  {
    hide NextApp;
    if events == [] {
      assert [] + [event] == [event] && [event][1..] == [];
      assert Apps(app, [event]) == Apps(NextApp(app, event).app, []);
    } else {
      assert (events + [event])[1..] == events[1..] + [event];
      AppsLast(NextApp(app, events[0]).app, events[1..], event);
    }
  }

  /**
   * One event more, in any run of the application: the log of its effects goes on to tell what the user is to see. In
   * particular a selection that comes while listening is translated exactly when translation is enabled and its id
   * fits.
   */
  lemma TheUserSeesTheApp(listeningRequested: bool, translationEnabled: bool, events: seq<AppEvent>, event: AppEvent)
    ensures var app := InitialApp(listeningRequested, translationEnabled);
            var was, now := Apps(app, events), ReplayApp(BLANK, app, events);
            ReplayApp(BLANK, app, events + [event])
              == (if was.mode == ShuttingDown then now else WatchHeard(now, Heard(was, event)))
  {
    var app := InitialApp(listeningRequested, translationEnabled);
    assert Ideal(Nothing) == BLANK;
    AppIsWatched(app, events);
    AppIsWatched(app, events + [event]);
    AppsLast(app, events, event);
    hide Apps, ReplayApp, NextApp, AppFits, Heard, StageFits, WatchHeard, Ideal;
    NextAppIsWatched(Apps(app, events), event);
  }

  // ----- What the host is told -----

  function NativePart(effects: seq<AppEffect>): seq<AppEffect> {
    if effects == [] then []
    else (if effects[0].OfSession? then [] else [effects[0]]) + NativePart(effects[1..])
  }

  lemma {:induction false} NativeOnly(effects: seq<Effect>, native: seq<AppEffect>)
    requires IsNative(native)
    ensures NativePart(Lifted(effects) + native) == native
  {
    var all := Lifted(effects) + native;
    if effects == [] {
      assert all == native;
      AllNative(native);
    } else {
      NativeOnly(effects[1..], native);
      assert all[1..] == Lifted(effects[1..]) + native;
    }
  }

  lemma {:induction false} AllNative(native: seq<AppEffect>)
    requires IsNative(native)
    ensures NativePart(native) == native
  {
    if native != [] {
      AllNative(native[1..]);
      assert native == [native[0]] + native[1..];
    }
  }

  /**
   * The host is told to start exactly when the application begins to wait for its start, to stop exactly when it begins
   * to wait for its stop, to shut down once on shutdown if it is there, and a lost host is looked for again; it is told
   * nothing else.
   */
  lemma HostIsTold(app: App, event: AppEvent)
    requires AppFits(app)
    ensures var t := NextApp(app, event);
            NativePart(t.effects) ==
            if app.mode == ShuttingDown then []
            else if event.Shutdown? then if app.nativeReady then [ShutdownNative] else []
            else if event.NativeDisconnected? then [Reconnect]
            else if t.app.mode == Starting && (app.mode != Starting || event.NativeReady?
              || event.NativeStopped?) then [StartNative]
            else if t.app.mode == Stopping && app.mode != Stopping then [StopNative]
            else []
  {
    hide Next, NativePart, Lifted;
    AllNative([]);
    AllNative([StartNative]);
    AllNative([StopNative]);
    AllNative([Reconnect]);
    AllNative([ShutdownNative]);
    if Heard(app, event).Some? {
      var effects := Next(app.active, Heard(app, event).value).effects;
      NativeOnly(effects, []);
      NativeOnly(effects, [StopNative]);
      NativeOnly(effects, [Reconnect]);
      NativeOnly(effects, [ShutdownNative]);
    }
  }

  lemma TwoEvents(app: App, a: AppEvent, b: AppEvent)
    ensures Apps(app, [a, b]) == NextApp(NextApp(app, a).app, b).app
  {
    hide NextApp;
    assert [a, b][1..] == [b] && [b][1..] == [];
    assert Apps(NextApp(app, a).app, [b]) == Apps(NextApp(NextApp(app, a).app, b).app, []);
  }

  /**
   * The cycle of the host: asked for, it comes to listen once it is ready and has started; switched off while it
   * listens it goes idle when it has stopped, and switched on again it listens after its next start.
   */
  lemma ListeningIsReached(app: App)
    requires app.mode != ShuttingDown
    ensures app.listeningRequested ==> Apps(app, [NativeReady, NativeStarted]).mode == Listening
    ensures app.mode == Listening && app.nativeReady ==>
              var stopped := Apps(app, [DisableListening, NativeStopped]);
              stopped.mode == Idle && Apps(stopped, [EnableListening, NativeStarted]).mode == Listening
    ensures Apps(app, [NativeDisconnected, NativeReady]).mode == (if app.listeningRequested then Starting else Idle)
  {
    TwoEvents(app, NativeReady, NativeStarted);
    TwoEvents(app, DisableListening, NativeStopped);
    TwoEvents(Apps(app, [DisableListening, NativeStopped]), EnableListening, NativeStarted);
    TwoEvents(app, NativeDisconnected, NativeReady);
    hide Apps, Next;
  }

  /** Switched on again after a fault, or while it stops, it comes to listen too. */
  lemma ListeningComesBack(app: App)
    requires app.nativeReady && !app.listeningRequested
    ensures app.mode == Faulted ==> Apps(app, [EnableListening, NativeStarted]).mode == Listening
    ensures app.mode == Stopping ==>
              var again := Apps(app, [EnableListening, NativeStopped]);
              again.mode == Starting && NextApp(again, NativeStarted).app.mode == Listening
  {
    TwoEvents(app, EnableListening, NativeStarted);
    TwoEvents(app, EnableListening, NativeStopped);
    hide Apps, Next;
  }

  /** An error that cannot be recovered from ends listening and keeps its code until the host is asked for again. */
  lemma FaultIsKept(app: App, code: string)
    requires app.mode != ShuttingDown
    ensures var t := NextApp(app, NativeError(code, false)).app;
            t.mode == Faulted && t.error == Some(code) && !t.listeningRequested && t.active.Nothing?
    ensures NextApp(app, NativeError(code, true)) == AppTransition(app.(error := Some(code)), [])
    ensures NextApp(app, NativeReady).app.error.None?
  {
  }

  // ----- The switches -----

  datatype Switches = Switches(translation: bool, listening: bool, host: bool)

  function SwitchesOf(app: App): Switches {
    Switches(app.translationEnabled, app.listeningRequested, app.nativeReady)
  }

  /** What an event says about a switch, with no application behind. */
  function Flip(w: Switches, event: AppEvent): Switches {
    match event
    case EnableTranslation => w.(translation := true)
    case DisableTranslation => w.(translation := false)
    case EnableListening => w.(listening := true)
    case DisableListening => w.(listening := false)
    case NativeError(_, recoverable) => if recoverable then w else w.(listening := false)
    case NativeReady => w.(host := true)
    case NativeDisconnected => w.(host := false)
    case _ => w
  }

  function FlipAll(w: Switches, events: seq<AppEvent>): Switches
    decreases |events|
  {
    if events == [] then w else FlipAll(Flip(w, events[0]), events[1..])
  }

  /** Until it shuts down, the application's switches stand as the events left them; then nothing changes any more. */
  lemma {:induction false} SwitchesStand(app: App, events: seq<AppEvent>)
    ensures app.mode != ShuttingDown && Shutdown !in events ==>
              Apps(app, events).mode != ShuttingDown
                && SwitchesOf(Apps(app, events)) == FlipAll(SwitchesOf(app), events)
    ensures app.mode == ShuttingDown ==> Apps(app, events) == app
    decreases |events|
  {
    if events != [] {
      OneFlip(app, events[0]);
      hide NextApp, Flip;
      SwitchesStand(NextApp(app, events[0]).app, events[1..]);
    }
  }

  lemma OneFlip(app: App, event: AppEvent)
    ensures var t := NextApp(app, event).app;
            if app.mode == ShuttingDown then t == app
            else event != Shutdown ==> t.mode != ShuttingDown && SwitchesOf(t) == Flip(SwitchesOf(app), event)
  {
    hide Next;
  }
}
