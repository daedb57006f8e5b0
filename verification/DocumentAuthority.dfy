/**
 The document authority (crates/kagami-session/src/authority.rs): guarded, idempotent
 submissions over one experiment, its history, its events and its interactive gestures.
 Each operation maps a state to the next one; a transaction copy is a state kept aside.
 */
module DocumentAuthority {
  import opened Aggregates

  const MAX_COMMAND_HISTORY := 256
  const MAX_REPLAY_COMMANDS := 4096
  const MAX_EVENT_HISTORY := 256

  /** Experiment contents are only ever compared and handed on. */
  datatype Contents = Contents(id: nat, scientific: bool)

  datatype EditCommand = EditCommand(id: nat, scientific: bool)

  type Schemas = nat
  type Catalog = nat
  type Target = nat

  datatype SessionCommand =
    | Edit(commands: seq<EditCommand>) | Undo | Redo | Begin | End
    | New(discard: bool) | Open(contents: Contents, target: Option<Target>, discard: bool) | Instantiate(spec: nat)

  datatype Envelope = Envelope(id: nat, actor: nat, expected: Option<nat>, gesture: Option<nat>,
                               command: SessionCommand)

  datatype Change =
    | Edited | Undone | Redone | GestureOpened(gesture: nat) | GestureClosed(gesture: nat, implicit: bool)
    | Replaced(fromFile: bool) | CapabilityChanged

  datatype Acceptance = Acceptance(id: nat, revision: nat, change: Change, event: nat, replayed: bool)

  datatype Rejection =
    | IdentityConflict | BatchTooLarge | RevisionConflict | GestureNotOpen | EmptyBatch | Invalid | NothingToUndo
    | NothingToRedo | NoGestureOpen | UnsavedChanges | NoCatalog | Retention

  datatype Verdict = Accepted(acceptance: Acceptance) | Refused(reason: Rejection)

  datatype Entry = Entry(contents: Contents, gesture: Option<nat>)

  datatype Event = Event(seqNo: nat, revision: nat, cause: Option<nat>, actor: nat, change: Change)

  datatype Record = Record(envelope: Envelope, acceptance: Acceptance)

  datatype State = State(
    contents: Contents, revision: nat, schemas: Schemas, catalog: Option<Catalog>,
    undo: seq<Entry>, redo: seq<Entry>, depth: nat, maxBatch: nat,
    accepted: seq<Record>, retained: nat, events: seq<Event>, nextEvent: nat,
    gesture: Option<nat>, nextGesture: nat, clean: nat, acknowledged: Option<nat>, target: Option<Target>)

  /** The pure transition, restore, template and admission rules of the document crate, as functions of their inputs. */
  datatype Rules = Rules(
    update: (Contents, seq<EditCommand>, Schemas) -> Option<Contents>,
    restorable: (Contents, Schemas) -> bool,
    materialise: (Contents, Catalog, Schemas, nat) -> Option<seq<EditCommand>>,
    openable: Contents -> bool,
    surplus: State -> Option<nat>)

  const EMPTY := Contents(0, false)

  function NewState(schemas: Schemas, depth: nat, maxBatch: nat): State {
    State(EMPTY, 0, schemas, None, [], [], Max(depth, 1), maxBatch, [], 0, [], 0, None, 0, 0, None, None)
  }

  predicate IsDirty(s: State) { s.revision != s.clean }

  // ---- Guards and replay ----

  /** The index of the first retained record with this identity, or the number of records. */
  function Find(accepted: seq<Record>, id: nat): (k: nat)
    ensures k <= |accepted|
    ensures k < |accepted| ==> accepted[k].envelope.id == id
    ensures forall i :: 0 <= i < k ==> accepted[i].envelope.id != id
  {
    if accepted == [] || accepted[0].envelope.id == id then 0 else 1 + Find(accepted[1..], id)
  }

  function Replay(s: State, e: Envelope): Option<Verdict> {
    var k := Find(s.accepted, e.id);
    if k == |s.accepted| then None
    else if s.accepted[k].envelope != e then Some(Refused(IdentityConflict))
    else Some(Accepted(s.accepted[k].acceptance.(replayed := true)))
  }

  predicate BatchFits(s: State, c: SessionCommand) { c.Edit? ==> |c.commands| <= s.maxBatch }

  predicate GuardHolds(s: State, e: Envelope) { e.expected.Some? ==> e.expected.value == s.revision }

  /** Commands whose acceptance is staged on a copy, because it can be refused after the transition. */
  predicate Staged(c: SessionCommand) {
    match c
    case Instantiate(_) => true
    case Edit(commands) => exists i :: 0 <= i < |commands| && commands[i].scientific
    case Open(contents, _, _) => contents.scientific
    case _ => false
  }

  // ---- Transitions ----

  function Push(s: State, cause: Option<nat>, actor: nat, change: Change): State {
    s.(nextEvent := s.nextEvent + 1,
       events := Last(s.events + [Event(s.nextEvent + 1, s.revision, cause, actor, change)], MAX_EVENT_HISTORY))
  }

  /** An open gesture the submission does not name is closed before the command is decided. */
  predicate ClosesGesture(s: State, e: Envelope) { s.gesture.Some? && e.gesture.None? && !e.command.End? }

  function ImplicitClose(s: State, e: Envelope): State {
    if ClosesGesture(s, e)
    then Push(s.(gesture := None), Some(e.id), e.actor, GestureClosed(s.gesture.value, true))
    else s
  }

  predicate GestureNamed(s: State, e: Envelope) { e.gesture.Some? ==> e.gesture == s.gesture }

  function Remember(s: State, gesture: Option<nat>): State {
    if gesture.Some? && s.undo != [] && s.undo[|s.undo| - 1].gesture == gesture then s
    else s.(redo := [], undo := Last(s.undo + [Entry(s.contents, gesture)], s.depth))
  }

  datatype Applied = Done(state: State, change: Change) | Failed(reason: Rejection)

  function ApplyEdit(s: State, commands: seq<EditCommand>, gesture: Option<nat>, r: Rules): Applied {
    if commands == [] then Failed(EmptyBatch)
    else if |commands| > s.maxBatch then Failed(BatchTooLarge)
    else
      match r.update(s.contents, commands, s.schemas)
      case None => Failed(Invalid)
      case Some(contents) => Done(Remember(s, gesture).(contents := contents, revision := s.revision + 1), Edited)
  }

  function ApplyUndo(s: State, r: Rules): Applied {
    if s.undo == [] then Failed(NothingToUndo)
    else
      var entry := s.undo[|s.undo| - 1];
      if !r.restorable(entry.contents, s.schemas) then Failed(Invalid)
      else Done(s.(undo := s.undo[..|s.undo| - 1], redo := Last(s.redo + [Entry(s.contents, entry.gesture)], s.depth),
                   contents := entry.contents, revision := s.revision + 1), Undone)
  }

  function ApplyRedo(s: State, r: Rules): Applied {
    if s.redo == [] then Failed(NothingToRedo)
    else
      var entry := s.redo[|s.redo| - 1];
      if !r.restorable(entry.contents, s.schemas) then Failed(Invalid)
      else Done(s.(redo := s.redo[..|s.redo| - 1], undo := Last(s.undo + [Entry(s.contents, entry.gesture)], s.depth),
                   contents := entry.contents, revision := s.revision + 1), Redone)
  }

  /** A replacement lands on the next revision of the running session, with no history and nothing unsaved. */
  function Replace(s: State, contents: Contents, target: Option<Target>, discard: bool, fromFile: bool,
                   r: Rules): Applied {
    if IsDirty(s) && !discard then Failed(UnsavedChanges)
    else if fromFile && !r.openable(contents) then Failed(Invalid)
    else Done(s.(contents := contents, revision := s.revision + 1, undo := [], redo := [], gesture := None,
                 clean := s.revision + 1, acknowledged := None, target := target), Replaced(fromFile))
  }

  function Apply(s: State, e: Envelope, r: Rules): Applied {
    match e.command
    case Edit(commands) => ApplyEdit(s, commands, e.gesture, r)
    case Undo => ApplyUndo(s, r)
    case Redo => ApplyRedo(s, r)
    case Begin => Done(s.(gesture := Some(s.nextGesture), nextGesture := s.nextGesture + 1),
                       GestureOpened(s.nextGesture))
    case End => if s.gesture.None? then Failed(NoGestureOpen)
      else Done(s.(gesture := None), GestureClosed(s.gesture.value, false))
    case Instantiate(spec) =>
      if s.catalog.None? then Failed(NoCatalog)
      else (match r.materialise(s.contents, s.catalog.value, s.schemas, spec)
            case None => Failed(Invalid)
            case Some(commands) => ApplyEdit(s, commands, e.gesture, r))
    case New(discard) => Replace(s, EMPTY, None, discard, false, r)
    case Open(contents, target, discard) => Replace(s, contents, target, discard, true, r)
  }

  function Weight(e: Envelope): nat { if e.command.Edit? then Max(|e.command.commands|, 1) else 1 }

  function TotalWeight(accepted: seq<Record>): nat {
    if accepted == [] then 0 else Weight(accepted[0].envelope) + TotalWeight(accepted[1..])
  }

  /** Oldest records go until both the count and the command budget hold. */
  function Evict(s: State): State
    decreases |s.accepted|
  {
    if (|s.accepted| > MAX_COMMAND_HISTORY || s.retained > MAX_REPLAY_COMMANDS) && s.accepted != []
    then Evict(s.(accepted := s.accepted[1..], retained := Less(s.retained, Weight(s.accepted[0].envelope))))
    else s
  }

  function Less(x: nat, y: nat): nat { if x < y then 0 else x - y }

  function AcceptanceOf(s: State, e: Envelope, change: Change): Acceptance {
    Acceptance(e.id, s.revision, change, s.nextEvent + 1, false)
  }

  function Recorded(s: State, e: Envelope, change: Change): State {
    var pushed := Push(s, Some(e.id), e.actor, change);
    Evict(pushed.(accepted := s.accepted + [Record(e, AcceptanceOf(s, e, change))], retained := s.retained + Weight(e)))
  }

  /** The submission path without staging: a command refused here has already closed an unnamed gesture. */
  function SubmitInner(s: State, e: Envelope, r: Rules): (State, Verdict) {
    match Replay(s, e)
    case Some(verdict) => (s, verdict)
    case None =>
      if !GuardHolds(s, e) then (s, Refused(RevisionConflict))
      else if !GestureNamed(s, e) then (s, Refused(GestureNotOpen))
      else
        var closed := ImplicitClose(s, e);
        match Apply(closed, e, r)
        case Failed(reason) => (closed, Refused(reason))
        case Done(t, change) => (Recorded(t, e, change), Accepted(AcceptanceOf(t, e, change)))
  }

  /** Staged acceptance: the copy replaces the state only once it is accepted and its retention admitted. */
  function Admit(s: State, next: State, verdict: Verdict, r: Rules): (State, Verdict) {
    if verdict.Refused? then (s, verdict)
    else if verdict.acceptance.replayed then (s, verdict)
    else
      match r.surplus(next)
      case None => (s, Refused(Retention))
      case Some(k) => (DropOldest(next, k), verdict)
  }

  function DropOldest(s: State, k: nat): State
    decreases k
  {
    if k == 0 || |s.accepted| <= 1 then s
    else DropOldest(s.(accepted := s.accepted[1..], retained := Less(s.retained, Weight(s.accepted[0].envelope))),
                    k - 1)
  }

  function Submit(s: State, e: Envelope, r: Rules): (State, Verdict) {
    match Replay(s, e)
    case Some(verdict) => (s, verdict)
    case None =>
      if !BatchFits(s, e.command) then (s, Refused(BatchTooLarge))
      else if !Staged(e.command) then SubmitInner(s, e, r)
      else if !GuardHolds(s, e) then (s, Refused(RevisionConflict))
      else Admit(s, SubmitInner(s, e, r).0, SubmitInner(s, e, r).1, r)
  }

  function AdoptSchemas(s: State, schemas: Schemas, actor: nat): State {
    Push(s.(schemas := schemas), None, actor, CapabilityChanged)
  }

  function SubmitWithSchemas(s: State, e: Envelope, schemas: Schemas, r: Rules): (State, Verdict) {
    match Replay(s, e)
    case Some(verdict) => (s, verdict)
    case None =>
      if !BatchFits(s, e.command) then (s, Refused(BatchTooLarge))
      else if !GuardHolds(s, e) then (s, Refused(RevisionConflict))
      else
        var staged := if s.schemas != schemas then AdoptSchemas(s, schemas, e.actor) else s;
        Admit(s, SubmitInner(staged, e, r).0, SubmitInner(staged, e, r).1, r)
  }

  datatype SaveOutcome = Clean | Superseded(current: nat) | Stale(acknowledged: nat)

  function AcknowledgeSave(s: State, revision: nat, target: Target): (State, SaveOutcome) {
    if s.acknowledged.Some? && revision < s.acknowledged.value then (s, Stale(s.acknowledged.value))
    else
      var t := s.(acknowledged := Some(revision), target := Some(target));
      if revision == s.revision then (t.(clean := revision), Clean) else (t, Superseded(s.revision))
  }
}
