/**
 The window's side of the document boundary (apps/kagami/src/document.rs): the mode gate
 (crates/kagami-session/src/workspace.rs), guards for asynchronous work, and saving.
 The ghost log records what has happened, so that a guard's fate can be stated.
 */
module Document {
  import opened Aggregates
  import opened DocumentAuthority
  import opened AuthorityLaws
  import AuthorityMeaning

  /** The incarnation and revision an asynchronous effect was begun against. */
  datatype Guard = Guard(scope: nat, revision: nat)

  /** What the window draws, taken from the authority at one revision. */
  datatype View = View(contents: Contents, revision: nat, schemas: Schemas, dirty: bool, target: Option<Target>,
                       gesture: Option<nat>, lastEvent: nat)

  function ViewOf(s: State): View { View(s.contents, s.revision, s.schemas, IsDirty(s), s.target, s.gesture,
                                         s.nextEvent) }

  /** The camera and projection, with their own revisions. */
  datatype ViewState = ViewState(view: nat, revision: nat, clean: nat, acknowledged: Option<nat>)

  const DEFAULT_VIEW := 0

  datatype Mode = Authoring | Observing(run: nat, remote: bool)

  datatype Consequence = StopPreview(run: nat) | Detach(run: nat)

  datatype Notice = NotAuthoring | ReferenceGate | Declined(reason: Rejection) | StaleGuard | ViewUnsaved | NoTarget
    | LoadFailed | WriteFailed | StillUnsaved

  datatype Loaded = Loaded(contents: Contents, view: nat)

  // ---- What has happened ----

  datatype Happening = Captured(guard: Guard) | Edited | Bracketed | Replaced | SchemasChanged | Watched | Returned

  predicate Invalidates(h: Happening) { h.Edited? || h.Replaced? || h.SchemasChanged? || h.Watched? }

  /** Nothing that should discard pending work has happened since the i-th entry. */
  ghost predicate Undisturbed(log: seq<Happening>, i: int)
    requires 0 <= i < |log|
  {
    forall j :: i < j < |log| ==> !Invalidates(log[j])
  }

  /** A captured guard equals the current one exactly while it is undisturbed. */
  ghost predicate Tracked(log: seq<Happening>, current: Guard, nextScope: nat) {
    && current.scope < nextScope
    && forall i :: 0 <= i < |log| && log[i].Captured? ==>
         && log[i].guard.scope < nextScope
         && (log[i].guard.scope == current.scope ==> log[i].guard.revision <= current.revision)
         && (log[i].guard == current <==> Undisturbed(log, i))
  }

  lemma LogGrows(log: seq<Happening>, h: Happening, before: Guard, after: Guard, nextBefore: nat, nextAfter: nat)
    requires Tracked(log, before, nextBefore) && nextBefore <= nextAfter
    requires Invalidates(h) ==>
      (after.scope == before.scope && before.revision < after.revision)
      || nextBefore <= after.scope < nextAfter
    requires !Invalidates(h) ==> after == before
    requires h.Captured? ==> h.guard == before
    ensures Tracked(log + [h], after, nextAfter)
  {
    var grown := log + [h];
    forall i | 0 <= i < |log| ensures Undisturbed(grown, i) <==> Undisturbed(log, i) && !Invalidates(h) {
      if Undisturbed(grown, i) {
        assert grown[|log|] == h;
        forall j | i < j < |log| ensures !Invalidates(log[j]) { assert grown[j] == log[j]; }
      }
    }
  }

  lemma ScopeIsOld(log: seq<Happening>, current: Guard, nextScope: nat)
    requires Tracked(log, current, nextScope)
    ensures current.scope < nextScope
  {
  }

  /** The authority's decision on one envelope, with or without newly verified schemas. */
  function Decide(s: State, e: Envelope, schemas: Option<Schemas>, r: Rules): (State, Verdict) {
    if schemas.Some? then SubmitWithSchemas(s, e, schemas.value, r) else Submit(s, e, r)
  }

  class Document {
    const rules: Rules
    const actor: nat
    var scope: nat
    var nextScope: nat
    var authority: State
    var view: View
    var authoring: ViewState
    var mode: Mode
    var nextCommand: nat
    var notice: Option<Notice>
    ghost var log: seq<Happening>

    ghost predicate Valid()
      reads this
    {
      && Sound(authority) && IdsBelow(authority.accepted, nextCommand)
      && view.contents == authority.contents && view.revision == authority.revision && view.schemas == authority.schemas
      && authoring.clean <= authoring.revision
        && (authoring.acknowledged.Some? ==> authoring.acknowledged.value <= authoring.revision)
      && Tracked(log, Guard(scope, authority.revision), nextScope)
    }

    constructor (schemas: Schemas, depth: nat, maxBatch: nat, rules: Rules, actor: nat)
      ensures Valid() && mode == Authoring && authority == NewState(schemas, depth, maxBatch) && log == []
      ensures !IsDirtyNow()
    {
      this.rules, this.actor := rules, actor;
      scope, nextScope, nextCommand, notice, log := 0, 1, 0, None, [];
      authority := NewState(schemas, depth, maxBatch);
      view := ViewOf(NewState(schemas, depth, maxBatch));
      authoring, mode := ViewState(DEFAULT_VIEW, 0, 0, None), Authoring;
    }

    predicate IsDirtyNow()
      reads this
    {
      IsDirty(authority) || authoring.revision != authoring.clean
    }

    /** A pending effect may still be adopted: same incarnation, same revision, authoring. */
    predicate AcceptsEffect(guard: Guard)
      reads this
    {
      mode == Authoring && guard == Guard(scope, view.revision)
    }

    /** A refusal changes nothing the user sees or has; at most a gesture is closed and a notice set. */
    twostate predicate Refusal()
      reads this
    {
      && SameDocument(old(authority), authority) && view == old(view) && scope == old(scope)
        && nextScope == old(nextScope)
      && authoring == old(authoring) && mode == old(mode) && log == old(log) && nextCommand >= old(nextCommand)
    }

    method AuthoringGuard() returns (guard: Option<Guard>)
      requires Valid()
      modifies this`log
      ensures Valid()
      ensures guard.Some? <==> mode == Authoring
      ensures guard.Some? ==> AcceptsEffect(guard.value) && log == old(log) + [Captured(guard.value)]
      ensures guard.None? ==> log == old(log)
    {
      if mode != Authoring { return None; }
      guard := Some(Guard(scope, view.revision));
      LogGrows(log, Captured(guard.value), guard.value, guard.value, nextScope, nextScope);
      log := log + [Captured(guard.value)];
    }

    method AdoptInstalledSchemas(schemas: Schemas)
      requires Valid()
      modifies this
      ensures Valid() && authority == AdoptSchemas(old(authority), schemas, actor)
      ensures log == old(log) + [SchemasChanged] && mode == old(mode) && authoring == old(authoring)
      ensures IsDirtyNow() == old(IsDirtyNow()) && nextCommand == old(nextCommand)
    {
      OperationsKeepSound(authority, Envelope(0, 0, None, None, Undo), schemas, actor, 0, 0, rules);
      LogGrows(log, SchemasChanged, Guard(scope, authority.revision), Guard(nextScope, authority.revision), nextScope,
               nextScope + 1);
      scope, nextScope := nextScope, nextScope + 1;
      authority := AdoptSchemas(authority, schemas, actor);
      view := ViewOf(authority);
      log := log + [SchemasChanged];
    }

    method Observe(run: nat, remote: bool) returns (ok: bool)
      requires Valid()
      modifies this
      ensures Valid() && authority == old(authority) && view == old(view) && authoring == old(authoring)
      ensures nextCommand == old(nextCommand)
      ensures ok <==> old(mode) == Authoring
      ensures ok ==> mode == Observing(run, remote) && log == old(log) + [Watched]
      ensures !ok ==> mode == old(mode) && log == old(log)
    {
      if mode != Authoring { return false; }
      mode := Observing(run, remote);
      LogGrows(log, Watched, Guard(scope, authority.revision), Guard(nextScope, authority.revision), nextScope,
               nextScope + 1);
      scope, nextScope, notice := nextScope, nextScope + 1, None;
      log := log + [Watched];
      ok := true;
    }

    /** Back to authoring at exactly the revision that was left; a cluster run is only ever detached from. */
    method EditInitialConditions() returns (consequence: Option<Consequence>)
      requires Valid()
      modifies this
      ensures Valid() && mode == Authoring
      ensures authority == old(authority) && view == old(view) && authoring == old(authoring)
      ensures nextCommand == old(nextCommand)
      ensures consequence.Some? <==> old(mode) != Authoring
      ensures consequence.Some? ==> log == old(log) + [Returned]
      ensures consequence.Some? ==>
        consequence.value ==
        (if old(mode).remote then Detach(old(mode).run) else StopPreview(old(mode).run))
      ensures consequence.None? ==> log == old(log)
    {
      if mode == Authoring { return None; }
      consequence := Some(if mode.remote then Detach(mode.run) else StopPreview(mode.run));
      LogGrows(log, Returned, Guard(scope, authority.revision), Guard(scope, authority.revision), nextScope, nextScope);
      mode, notice := Authoring, None;
      log := log + [Returned];
    }

    /** Camera, projection and scale: a view change is not a submission and disturbs no guard. */
    method MoveView(candidate: nat) returns (changed: bool)
      requires Valid()
      modifies this`authoring
      ensures Valid() && changed == (candidate != old(authoring.view)) && authoring.view == candidate
      ensures authoring.clean == old(authoring.clean)
      ensures authoring.revision == old(authoring.revision) + (if changed then 1 else 0)
    {
      changed := candidate != authoring.view;
      if changed { authoring := authoring.(view := candidate, revision := authoring.revision + 1); }
    }

    function Envelop(command: SessionCommand, expected: Option<nat>): Envelope
      reads this`nextCommand
    {
      Envelope(nextCommand, actor, expected, None, command)
    }

    /** The one route to the authority: mode gate, reference gate, a fresh identity, then its decision. */
    method SubmitPrepared(command: SessionCommand, expected: Option<nat>, schemas: Option<Schemas>, gateOpen: bool)
      returns (accepted: bool)
      requires Valid()
      modifies this
      ensures Valid() && mode == old(mode) && authoring == old(authoring)
      ensures accepted ==>
        old(mode) == Authoring && gateOpen
        && (expected.Some? ==> expected.value == old(authority.revision))
      ensures accepted ==> authority.revision == old(authority.revision) + (if MovesRevision(command) then 1 else 0)
      ensures accepted ==> authority.schemas == schemas.GetOr(old(authority.schemas)) && view == ViewOf(authority)
      ensures accepted ==> (scope != old(scope) <==>
                              command.New? || command.Open? || authority.schemas != old(authority.schemas))
      ensures accepted ==> |log| == |old(log)| + 1 && log[..|old(log)|] == old(log)
                           && (Invalidates(log[|old(log)|]) <==>
                                 MovesRevision(command) || authority.schemas != old(authority.schemas))
      ensures accepted && (command.New? || command.Open?) ==> log[|old(log)|] == Happening.Replaced
      ensures accepted ==> authority == Decide(old(authority), old(Envelop(command, expected)), schemas, rules).0
      ensures accepted <==>
        old(mode) == Authoring && gateOpen
        && Decide(old(authority), old(Envelop(command, expected)), schemas, rules).1.Accepted?
      ensures !accepted ==> Refusal() && notice.Some?
      ensures nextCommand == old(nextCommand) + (if old(mode) == Authoring && gateOpen then 1 else 0)
    {
      hide Sound, Decide, IdsBelow, Tracked, Undisturbed;
      ScopeIsOld(log, Guard(scope, authority.revision), nextScope);
      if mode != Authoring {
        notice := Some(NotAuthoring);
        return false;
      }
      if !gateOpen {
        notice := Some(ReferenceGate);
        return false;
      }
      var envelope := Envelop(command, expected);
      var changed := schemas.Some? && schemas.value != authority.schemas;
      DecisionFacts(authority, envelope, schemas, nextCommand);
      nextCommand := nextCommand + 1;
      var (next, verdict) := Decide(authority, envelope, schemas, rules);
      if verdict.Refused? {
        authority, notice := next, Some(Declined(verdict.reason));
        return false;
      }
      var rescope := command.New? || command.Open? || changed;
      var happening := if command.New? || command.Open? then Happening.Replaced
        else if MovesRevision(command) then Happening.Edited else if changed then SchemasChanged else Bracketed;
      ghost var after := Guard(if rescope then nextScope else scope, next.revision);
      LogGrows(log, happening, Guard(scope, authority.revision), after, nextScope,
               nextScope + (if rescope then 1 else 0));
      if rescope { scope, nextScope := nextScope, nextScope + 1; }
      authority, view, notice, log := next, ViewOf(next), None, log + [happening];
      accepted := true;
    }

    lemma DecisionFacts(s: State, e: Envelope, schemas: Option<Schemas>, next: nat)
      requires Sound(s) && IdsBelow(s.accepted, next) && e.id == next
      ensures Sound(Decide(s, e, schemas, rules).0) && IdsBelow(Decide(s, e, schemas, rules).0.accepted, next + 1)
      ensures Decide(s, e, schemas, rules).1.Refused? ==> SameDocument(s, Decide(s, e, schemas, rules).0)
      ensures Decide(s, e, schemas, rules).1.Accepted? ==>
        && GuardHolds(s, e)
        && Decide(s, e, schemas, rules).0.revision == s.revision + (if MovesRevision(e.command) then 1 else 0)
        && Decide(s, e, schemas, rules).0.schemas == schemas.GetOr(s.schemas)
    {
      FreshIsNotReplayed(s, e, next);
      IdsStayBelow(s, e, schemas.GetOr(0), next, rules);
      OperationsKeepSound(s, e, schemas.GetOr(0), 0, 0, 0, rules);
      if Submit(s, e, rules).1.Refused? { RefusalChangesNothingIff(s, e, rules); }
        else { AcceptanceAppliesOnce(s, e, rules); }
      if schemas.Some? {
        if SubmitWithSchemas(s, e, schemas.value,
                             rules).1.Refused? { RefusedSchemaEditIsAtomic(s, e, schemas.value, rules); }
        else { SchemaAcceptanceAppliesOnce(s, e, schemas.value, rules); }
      }
      hide Submit, SubmitWithSchemas, Sound;
    }

    /** Adopt a finished effect only if nothing has disturbed its guard, even if everything looks the same again. */
    method EditGuarded(guard: Guard, commands: seq<EditCommand>, schemas: Option<Schemas>, gateOpen: bool)
      returns (accepted: bool)
      requires Valid()
      modifies this
      ensures Valid()
      ensures accepted ==> old(AcceptsEffect(guard)) && authority.revision == old(authority.revision) + 1
      ensures accepted ==> old(mode) == Authoring && guard == Guard(old(scope), old(view.revision)) && gateOpen
      ensures accepted ==> forall i :: 0 <= i < |old(log)| && old(log)[i] == Captured(guard) ==>
        Undisturbed(old(log), i)
      ensures accepted ==> |log| == |old(log)| + 1 && log[..|old(log)|] == old(log) && Invalidates(log[|old(log)|])
      ensures accepted <==> old(AcceptsEffect(guard)) && gateOpen &&
                            Decide(old(authority), old(Envelop(Edit(commands), Some(guard.revision))), schemas,
                                   rules).1.Accepted?
      ensures accepted ==> authority == Decide(old(authority), old(Envelop(Edit(commands), Some(guard.revision))),
                                               schemas, rules).0
      ensures accepted ==> view.contents == authority.contents
                           && rules.update(old(authority.contents), commands, schemas.GetOr(old(authority.schemas)))
                              == Some(authority.contents)
      ensures !accepted ==> Refusal() && notice.Some?
      ensures !accepted ==> IsDirtyNow() == old(IsDirtyNow())
    {
      hide Sound, IdsBelow, Decide;
      if !AcceptsEffect(guard) {
        notice := Some(StaleGuard);
        return false;
      }
      ghost var before, envelope := authority, Envelop(Edit(commands), Some(guard.revision));
      accepted := SubmitPrepared(Edit(commands), Some(guard.revision), schemas, gateOpen);
      if accepted { EditedContents(before, envelope, schemas, envelope.id); }
    }

    lemma EditedContents(s: State, e: Envelope, schemas: Option<Schemas>, next: nat)
      requires IdsBelow(s.accepted, next) && e.id == next && e.command.Edit? && Decide(s, e, schemas, rules).1.Accepted?
      ensures rules.update(s.contents, e.command.commands, schemas.GetOr(s.schemas))
        == Some(Decide(s, e, schemas, rules).0.contents)
    {
      FreshIsNotReplayed(s, e, next);
      hide Submit, SubmitWithSchemas;
      if schemas.Some? {
        AuthorityMeaning.SchemaSubmissionMeans(s, e, schemas.value, rules);
      } else {
        AuthorityMeaning.SubmissionMeans(s, e, rules);
      }
      hide AuthorityMeaning.Remembered, AuthorityMeaning.Attended;
    }

    method SubmitCommand(command: SessionCommand, gateOpen: bool) returns (accepted: bool)
      requires Valid()
      modifies this
      ensures Valid() && mode == old(mode) && authoring == old(authoring)
      ensures accepted ==> authority == Decide(old(authority), old(Envelop(command, None)), None, rules).0
      ensures accepted && command.Edit? ==>
        rules.update(old(authority.contents), command.commands, old(authority.schemas)) == Some(authority.contents)
      ensures accepted && command.Undo? ==>
        old(authority.undo) != []
        && authority.contents == old(authority.undo)[|old(authority.undo)| - 1].contents
      ensures accepted && command.Redo? ==>
        old(authority.redo) != []
        && authority.contents == old(authority.redo)[|old(authority.redo)| - 1].contents
      ensures accepted && (command.Begin? || command.End?) ==> authority.contents == old(authority.contents)
      ensures accepted ==> view.contents == authority.contents && view.revision == authority.revision
      ensures accepted ==> |log| == |old(log)| + 1 && log[..|old(log)|] == old(log)
      ensures accepted ==> (Invalidates(log[|old(log)|]) <==> MovesRevision(command))
      ensures accepted && (command.New? || command.Open?) ==> log[|old(log)|] == Happening.Replaced
      ensures accepted <==>
        old(mode) == Authoring && gateOpen
        && Decide(old(authority), old(Envelop(command, None)), None, rules).1.Accepted?
      ensures !accepted ==> Refusal() && notice.Some? && IsDirtyNow() == old(IsDirtyNow())
    {
      ghost var before, envelope := authority, Envelop(command, None);
      accepted := SubmitPrepared(command, None, None, gateOpen);
      if accepted { Performs(before, envelope, envelope.id); }
    }

    /** What an accepted command did to the contents. */
    lemma Performs(s: State, e: Envelope, next: nat)
      requires IdsBelow(s.accepted, next) && e.id == next && Decide(s, e, None, rules).1.Accepted?
      ensures var t := Decide(s, e, None, rules).0;
        && (e.command.Edit? ==> rules.update(s.contents, e.command.commands, s.schemas) == Some(t.contents))
        && (e.command.Undo? ==> s.undo != [] && t.contents == s.undo[|s.undo| - 1].contents)
        && (e.command.Redo? ==> s.redo != [] && t.contents == s.redo[|s.redo| - 1].contents)
        && (e.command.Begin? || e.command.End? ==> t.contents == s.contents)
    {
      FreshIsNotReplayed(s, e, next);
      AuthorityMeaning.SubmissionMeans(s, e, rules);
      hide Submit, AuthorityMeaning.Remembered, AuthorityMeaning.Newest;
    }

    method MayDiscardView(discard: bool) returns (ok: bool)
      modifies this`notice
      ensures ok <==> authoring.revision == authoring.clean || discard
      ensures !ok ==> notice.Some?
    {
      ok := authoring.revision == authoring.clean || discard;
      if !ok { notice := Some(ViewUnsaved); }
    }

    /** A fresh document and a clean default view together, or neither. */
    method NewExperiment(discard: bool, gateOpen: bool) returns (accepted: bool)
      requires Valid()
      modifies this
      ensures Valid()
      ensures accepted <==> old(mode) == Authoring && gateOpen && (discard || !old(IsDirtyNow()))
      ensures accepted <==>
        && old(mode) == Authoring && gateOpen
        && (discard || old(authority.revision == authority.clean && authoring.revision == authoring.clean))
      ensures accepted ==> authority.revision == authority.clean && authoring.revision == authoring.clean
      ensures accepted ==> view.contents == authority.contents == Contents(0, false)
      ensures accepted ==>
        authoring == ViewState(DEFAULT_VIEW, old(authoring.revision) + 1, old(authoring.revision) + 1, None)
      ensures accepted ==> !IsDirtyNow() && authority.contents == EMPTY && authoring.view == DEFAULT_VIEW
      ensures accepted ==> authority.target.None? && authority.acknowledged.None?
      ensures accepted ==> log == old(log) + [Happening.Replaced]
      ensures !accepted ==> Refusal() && notice.Some?
    {
      hide Sound, IdsBelow, Tracked, Decide, Retained;
      var may := MayDiscardView(discard);
      if !may { return false; }
      FreshReplacement(authority, Envelop(New(discard), None), nextCommand);
      accepted := SubmitCommand(New(discard), gateOpen);
      if accepted { authoring := Adopted(authoring, DEFAULT_VIEW); }
    }

    function Adopted(v: ViewState, candidate: nat): ViewState {
      ViewState(candidate, v.revision + 1, v.revision + 1, None)
    }

    /** A scientific document is staged, and must also be retained beside what the session already holds. */
    ghost predicate Retained(s: State, e: Envelope) {
      Staged(e.command) ==> rules.surplus(SubmitInner(s, e, rules).0).Some?
    }

    lemma FreshReplacement(s: State, e: Envelope, next: nat)
      requires Sound(s) && IdsBelow(s.accepted, next) && e.id == next && (e.command.New? || e.command.Open?)
      requires e.expected.None? && e.gesture.None?
      ensures Decide(s, e, None, rules).1.Accepted? <==>
        && (e.command.discard || !IsDirty(s))
        && (e.command.Open? ==> rules.openable(e.command.contents) && Retained(s, e))
      ensures var (t, verdict) := Decide(s, e, None, rules);
              verdict.Accepted? ==>
                && !IsDirty(t) && t.acknowledged.None?
                && t.contents == (if e.command.New? then EMPTY else e.command.contents)
                && t.target == (if e.command.New? then None else e.command.target)
    {
      FreshIsNotReplayed(s, e, next);
      ReplacementDecided(s, e);
      if Decide(s, e, None, rules).1.Accepted? { AcceptanceAppliesOnce(s, e, rules); }
      hide Submit, Sound, Retained;
    }

    lemma ReplacementDecided(s: State, e: Envelope)
      requires Replay(s, e).None? && (e.command.New? || e.command.Open?) && e.expected.None? && e.gesture.None?
      ensures Submit(s, e, rules).1.Accepted? <==>
        && (e.command.discard || !IsDirty(s))
        && (e.command.Open? ==> rules.openable(e.command.contents) && Retained(s, e))
    {
      hide Find, Recorded;
    }

    /** The loaded document and its view are adopted together; nothing read is kept if either gate refuses. */
    method OpenFile(loaded: Option<Loaded>, target: Target, discard: bool, gateOpen: bool) returns (accepted: bool)
      requires Valid()
      modifies this
      ensures Valid()
      ensures accepted <==>
        && old(mode) == Authoring && gateOpen && (discard || !old(IsDirtyNow()))
        && loaded.Some? && rules.openable(loaded.value.contents)
        && Retained(old(authority), old(Envelop(Open(loaded.value.contents, Some(target), discard), None)))
      ensures accepted ==> old(mode) == Authoring && gateOpen && loaded.Some?
      ensures accepted ==>
        (discard || old(authority.revision == authority.clean && authoring.revision == authoring.clean))
      ensures accepted ==> authority.revision == authority.clean && authoring.revision == authoring.clean
      ensures accepted ==> !IsDirtyNow() && authority.target == Some(target) && authority.acknowledged.None?
      ensures accepted ==> authority.contents == loaded.value.contents && authoring.view == loaded.value.view
      ensures accepted ==>
        authoring == ViewState(loaded.value.view, old(authoring.revision) + 1, old(authoring.revision) + 1, None)
      ensures accepted ==> log == old(log) + [Happening.Replaced]
      ensures !accepted ==> Refusal() && notice.Some?
    {
      hide Sound, IdsBelow, Tracked, Decide, Retained;
      if mode != Authoring {
        notice := Some(NotAuthoring);
        return false;
      }
      var may := MayDiscardView(discard);
      if !may { return false; }
      if loaded.None? {
        notice := Some(LoadFailed);
        return false;
      }
      FreshReplacement(authority, Envelop(Open(loaded.value.contents, Some(target), discard), None), nextCommand);
      accepted := SubmitCommand(Open(loaded.value.contents, Some(target), discard), gateOpen);
      if accepted { authoring := Adopted(authoring, loaded.value.view); }
    }

    /** A completed write cleans exactly the two revisions it captured, disturbs no guard and moves no content. */
    method Save(path: Option<Target>, written: bool) returns (saved: bool)
      requires Valid()
      modifies this
      ensures Valid() && scope == old(scope) && mode == old(mode) && log == old(log) && nextCommand == old(nextCommand)
      ensures saved <==> written && (path.Some? || old(authority.target).Some?)
      ensures saved ==>
        !IsDirtyNow() && authority.target == (if path.Some? then path else old(authority.target))
        && notice.None?
      ensures authority.contents == old(authority.contents) && authority.revision == old(authority.revision)
      ensures saved ==> authority.clean == authority.revision && authoring.clean == authoring.revision
      ensures saved ==> authoring.view == old(authoring.view) && authoring.revision == old(authoring.revision)
      ensures !saved ==> authority == old(authority) && view == old(view) && authoring == old(authoring) && notice.Some?
    {
      var target := if path.Some? then path else authority.target;
      if target.None? {
        notice := Some(NoTarget);
        return false;
      }
      var captured, capturedView := authority.revision, authoring.revision;
      if !written {
        notice := Some(WriteFailed);
        return false;
      }
      OperationsKeepSound(authority, Envelope(0, 0, None, None, Undo), 0, 0, captured, target.value, rules);
      var (next, outcome) := AcknowledgeSave(authority, captured, target.value);
      authority := next;
      authoring := ViewState(authoring.view, authoring.revision, capturedView, Some(capturedView));
      view := ViewOf(authority);
      notice := if outcome == SaveOutcome.Clean then None else Some(StillUnsaved);
      saved := true;
    }
  }

  /** The view shows the authority's document, whether it is saved, where, what is held and what was last published. */
  lemma ViewShows(s: State)
    ensures var v := ViewOf(s);
      && v.contents == s.contents && v.revision == s.revision && v.schemas == s.schemas && v.target == s.target
      && (v.dirty <==> s.revision != s.clean) && v.gesture == s.gesture && v.lastEvent == s.nextEvent
  {
  }

  lemma FreshIsNotReplayed(s: State, e: Envelope, next: nat)
    requires IdsBelow(s.accepted, next) && e.id == next
    ensures Replay(s, e).None?
  {
  }

  lemma IdsStayBelow(s: State, e: Envelope, schemas: Schemas, next: nat, r: Rules)
    requires IdsBelow(s.accepted, next) && e.id == next
    ensures IdsBelow(Submit(s, e, r).0.accepted, next + 1)
    ensures IdsBelow(SubmitWithSchemas(s, e, schemas, r).0.accepted, next + 1)
  {
    var staged := if s.schemas != schemas then AdoptSchemas(s, schemas, e.actor) else s;
    InnerIdsBelow(s, e, next, r);
    InnerIdsBelow(staged, e, next, r);
    AdmitIdsBelow(s, SubmitInner(s, e, r).0, SubmitInner(s, e, r).1, next, r);
    AdmitIdsBelow(s, SubmitInner(staged, e, r).0, SubmitInner(staged, e, r).1, next, r);
    hide SubmitInner, Admit, Find, Staged;
  }

  lemma InnerIdsBelow(s: State, e: Envelope, next: nat, r: Rules)
    requires IdsBelow(s.accepted, next) && e.id == next
    ensures IdsBelow(SubmitInner(s, e, r).0.accepted, next + 1)
  {
    hide Apply, Find;
    var applied := Apply(ImplicitClose(s, e), e, r);
    if applied.Done? {
      ApplyRevision(ImplicitClose(s, e), e, r);
      var pushed := Push(applied.state, Some(e.id), e.actor, applied.change);
      var longer := pushed.(accepted := applied.state.accepted
                            + [Record(e, AcceptanceOf(applied.state, e, applied.change))],
                            retained := applied.state.retained + Weight(e));
      assert IdsBelow(longer.accepted, next + 1);
      EvictKeeps(longer);
      hide Evict;
    }
  }

  lemma AdmitIdsBelow(s: State, t: State, verdict: Verdict, next: nat, r: Rules)
    requires IdsBelow(s.accepted, next) && IdsBelow(t.accepted, next + 1)
    ensures IdsBelow(Admit(s, t, verdict, r).0.accepted, next + 1)
  {
    if r.surplus(t).Some? { DropKeeps(t, r.surplus(t).value); }
    hide DropOldest;
  }
}
