/**
 Creating objects from catalog templates (apps/kagami/src/catalog_form.rs): a local
 proposal, one background slot for loading or preparing, and the shared scientific lane
 (apps/kagami/src/scientific_effect.rs) for documents with captured physics.
 The ghost fields record every Apply and every adoption it led to.
 */
module TemplateCatalog {
  import opened Aggregates
  import DA = DocumentAuthority
  import opened Document

  const PAGE := 24
  const MAX_PATH := 4096

  /** The proposal: its tokens, the document it was selected against, and consent to rebuild history. */
  datatype Form = Form(inputToken: nat, token: nat, guard: Option<Guard>, captured: bool, consent: Option<nat>)

  datatype Preparing = Preparing(generation: nat, guard: Guard, revision: nat)

  datatype Pending = Pending(guard: Guard, cancelled: bool)

  /** What a preparation delivers: direct edits, or inputs for the scientific lane. */
  datatype Ready = Direct(commands: seq<DA.EditCommand>, schemas: DA.Schemas) | Scientific

  /** What stood when Apply was accepted. */
  datatype Request = Request(token: nat, guard: Guard, revision: nat, captured: bool)

  datatype Action =
    | Open | Close | Cancel | PickDirectory | Load(pathBytes: nat) | Reload | Poll
    | Page(catalog: nat, offset: nat) | Select(catalog: nat, captured: bool, valid: bool)
    | EditInput(form: nat, valid: bool) | Confirm(proposal: nat, confirmed: bool)
    | Apply(proposal: nat, resolved: bool) | Dependencies(rebinds: bool, queries: bool)

  /** Since this guard was captured, nothing has happened that should discard pending work. */
  ghost predicate Pristine(log: seq<Happening>, guard: Guard) {
    forall i :: 0 <= i < |log| && log[i] == Captured(guard) ==> Undisturbed(log, i)
  }

  ghost predicate OneInvalidation(before: seq<Happening>, after: seq<Happening>) {
    |after| == |before| + 1 && after[..|before|] == before && Invalidates(after[|before|])
  }

  /** At most one slot is occupied, by the last Apply; adoptions are distinct Applies that were not withdrawn. */
  ghost predicate Slots(loading: bool, preparing: Option<Preparing>, running: Option<nat>,
                        applies: seq<Request>, adoptions: seq<nat>, withdrawn: set<nat>)
  {
    && !(loading && preparing.Some?) && !(loading && running.Some?) && !(preparing.Some? && running.Some?)
    && (forall i :: 0 <= i < |adoptions| ==> adoptions[i] < |applies| && adoptions[i] !in withdrawn)
    && (forall i, j :: 0 <= i < j < |adoptions| ==> adoptions[i] < adoptions[j])
    && (forall w :: w in withdrawn ==> w < |applies|)
    && (preparing.Some? || running.Some? ==> applies != [] && forall i :: 0 <= i < |adoptions| ==>
          adoptions[i] < |applies| - 1)
    && (preparing.Some? ==> Matches(preparing.value, applies[|applies| - 1]))
    && (running.Some? ==> running.value == applies[|applies| - 1].token)
  }

  ghost predicate Matches(p: Preparing, r: Request) {
    p.generation == r.token && p.guard == r.guard && p.revision == r.revision
  }

  /** A preparation still answers the present proposal, consent, document and inventory. */
  ghost predicate Stands(form: Form, p: Preparing, mode: Mode, present: Guard, inventory: Option<nat>) {
    && form.token == p.generation && mode == Authoring && p.guard == present && inventory == Some(p.revision)
    && (form.captured ==> form.consent == Some(form.token))
  }

  /**
   An adoption answers an Apply: its token, consent, document and inventory stood, and nothing disturbed its guard.
   */
  ghost predicate Answers(request: Request, form: Form, mode: Mode, present: Guard, log: seq<Happening>, inLane: bool,
                          inventory: Option<nat>) {
    && form.token == request.token && mode == Authoring && request.guard == present && Pristine(log, request.guard)
    && (inLane || request.captured ==> form.consent == Some(request.token))
    && (!inLane ==> inventory == Some(request.revision))
  }

  /** A token names one set of inputs: an Apply made with the present one was for the present guard. */
  ghost predicate Tokens(form: Form, catalogToken: nat, nextToken: nat, applies: seq<Request>) {
    && form.token < nextToken && form.inputToken < nextToken && catalogToken < nextToken
    && (form.consent.Some? ==> form.consent.value < nextToken)
    && forall i :: 0 <= i < |applies| ==>
         && applies[i].token < nextToken
         && (applies[i].token == form.token ==>
               form.guard == Some(applies[i].guard) && form.captured == applies[i].captured)
  }

  /** A withdrawn Apply still in a slot can no longer pass for the present, consented proposal. */
  ghost predicate Halted(form: Form, waiting: bool, applies: seq<Request>, withdrawn: set<nat>) {
    waiting && applies != [] && |applies| - 1 in withdrawn ==>
      form.token != applies[|applies| - 1].token || (form.captured && form.consent != Some(form.token))
  }

  /** While the controller runs in the lane, the lane's effect is the one it handed over. */
  ghost predicate LaneHolds(running: Option<nat>, pending: Option<Pending>, applies: seq<Request>) {
    running.Some? ==> pending.Some? && applies != [] && pending.value.guard == applies[|applies| - 1].guard
  }

  /** Every guard in play was captured from the document. */
  ghost predicate Provenance(form: Form, applies: seq<Request>, log: seq<Happening>) {
    && (form.guard.Some? ==> Captured(form.guard.value) in log)
    && forall i :: 0 <= i < |applies| ==> Captured(applies[i].guard) in log
  }

  lemma ProvenanceOutlives(form: Form, applies: seq<Request>, before: seq<Happening>, after: seq<Happening>)
    requires Provenance(form, applies, before) && |before| <= |after| && after[..|before|] == before
    ensures Provenance(form, applies, after)
  {
  }

  /** Once disturbed, a captured guard is never current again. */
  lemma DisturbedIsNeverAccepted(document: Document, before: seq<Happening>, guard: Guard)
    requires document.Valid() && OneInvalidation(before, document.log) && Captured(guard) in before
    ensures !document.AcceptsEffect(guard)
  {
    var log := document.log;
    var i :| 0 <= i < |before| && before[i] == Captured(guard);
    assert log[i] == Captured(guard);
    assert Invalidates(log[|before|]);
    assert !Undisturbed(log, i);
  }

  /** The document would take this edit: guard still good, gate open, and the authority's decision an acceptance. */
  ghost predicate WouldEdit(document: Document, guard: Guard, commands: seq<DA.EditCommand>, schemas: DA.Schemas,
                            gateOpen: bool)
    reads document
  {
    && document.mode == Authoring && guard.scope == document.scope && guard.revision == document.view.revision
    && gateOpen
    && Decide(document.authority, EditOf(document, guard, commands), Some(schemas), document.rules).1.Accepted?
  }

  function EditOf(document: Document, guard: Guard, commands: seq<DA.EditCommand>): DA.Envelope
    reads document`nextCommand
  {
    DA.Envelope(document.nextCommand, document.actor, Some(guard.revision), None, DA.Edit(commands))
  }

  /** A finished effect that still may, and so is put before the document. */
  ghost predicate Submits(pending: Option<Pending>, document: Document, finished: bool, outcome: Option<Ready>,
                          late: bool)
    reads document
  {
    && pending.Some? && finished && !pending.value.cancelled && !late && outcome.Some? && outcome.value.Direct?
    && document.AcceptsEffect(pending.value.guard)
  }

  /** A finished effect the document takes. */
  ghost predicate Lands(pending: Option<Pending>, document: Document, finished: bool, outcome: Option<Ready>,
                        late: bool,
                        gateOpen: bool)
    reads document
  {
    && pending.Some? && finished && !pending.value.cancelled && !late && outcome.Some? && outcome.value.Direct?
    && WouldEdit(document, pending.value.guard, outcome.value.commands, outcome.value.schemas, gateOpen)
  }

  /** Nothing of the document has changed but the notice shown. */
  twostate predicate Untouched(document: Document)
    reads document
  {
    && document.scope == old(document.scope) && document.nextScope == old(document.nextScope)
    && document.authority == old(document.authority) && document.view == old(document.view)
    && document.mode == old(document.mode) && document.nextCommand == old(document.nextCommand)
    && document.log == old(document.log)
  }

  /** The single non-queuing effect lane of the window. */
  class Lane {
    var pending: Option<Pending>

    constructor ()
      ensures pending == None
    {
      pending := None;
    }

    method CancelPending()
      modifies this
      ensures pending == if old(pending).None? then None else Some(Pending(old(pending).value.guard, true))
    {
      if pending.Some? { pending := Some(pending.value.(cancelled := true)); }
    }

    method Begin(document: Document, guard: Guard, able: bool) returns (ok: bool)
      modifies this
      ensures ok <==> old(pending).None? && document.AcceptsEffect(guard) && able
      ensures pending == if ok then Some(Pending(guard, false)) else old(pending)
    {
      if pending.Some? || !document.AcceptsEffect(guard) || !able { return false; }
      pending := Some(Pending(guard, false));
      ok := true;
    }

    /** Adopts a finished, uncancelled effect through the guarded edit; a cancelled one keeps the lane until it ends. */
    method PollLane(document: Document, finished: bool, outcome: Option<Ready>, late: bool, gateOpen: bool)
      returns (accepted: bool)
      requires document.Valid()
      modifies this, document
      ensures document.Valid()
      ensures accepted ==>
        old(pending.Some? && !pending.value.cancelled && document.AcceptsEffect(pending.value.guard))
        && finished && !late
      ensures accepted ==>
        document.authority.revision == old(document.authority.revision) + 1
        && OneInvalidation(old(document.log), document.log)
      ensures accepted ==> Pristine(old(document.log), old(pending.value.guard))
      ensures accepted <==>
        && old(pending).Some? && finished && !old(pending).value.cancelled && !late
        && outcome.Some? && outcome.value.Direct?
        && old(WouldEdit(document, pending.value.guard, outcome.value.commands, outcome.value.schemas, gateOpen))
      ensures accepted ==>
        document.rules.update(old(document.authority.contents), outcome.value.commands, outcome.value.schemas)
        == Some(document.authority.contents)
      ensures pending.Some? <==> old(pending).Some? && !finished
      ensures pending.Some? ==> pending.value.guard == old(pending).value.guard
      ensures pending.Some? ==> (pending.value.cancelled <==>
                                   old(pending).value.cancelled || !old(document.AcceptsEffect(pending.value.guard)))
      ensures old(pending).None? || !finished ==> document.authority == old(document.authority)
      ensures !accepted ==>
        document.log == old(document.log) && document.scope == old(document.scope)
        && document.view == old(document.view)
      ensures !accepted ==> document.mode == old(document.mode)
      ensures !accepted ==> document.authority.contents == old(document.authority.contents)
      ensures accepted <==> old(Lands(pending, document, finished, outcome, late, gateOpen))
      ensures !old(Submits(pending, document, finished, outcome, late)) ==> Untouched(document)
    {
      if pending.None? { return false; }
      var current := pending.value;
      if !document.AcceptsEffect(current.guard) {
        current := current.(cancelled := true);
        pending := Some(current);
      }
      if !finished { return false; }
      pending := None;
      if current.cancelled || late || outcome.None? || outcome.value.Scientific? {
        document.notice := Some(StaleGuard);
        return false;
      }
      accepted := document.EditGuarded(current.guard, outcome.value.commands, Some(outcome.value.schemas), gateOpen);
    }
  }

  class Controller {
    var open: bool
    var form: Form
    var offset: nat
    var entries: Option<nat>
    var loaded: bool
    var catalogToken: nat
    var loading: bool
    var preparing: Option<Preparing>
    var running: Option<nat>
    var querying: bool
    var nextToken: nat
    ghost var applies: seq<Request>
    ghost var adoptions: seq<nat>
    ghost var withdrawn: set<nat>

    ghost predicate Valid(lane: Lane, document: Document)
      reads this, lane, document
    {
      Consistent(lane.pending, document.log)
    }

    /** What the controller keeps, beside what the lane is doing and what has happened to the document. */
    ghost predicate Consistent(pending: Option<Pending>, log: seq<Happening>)
      reads this
    {
      && Slots(loading, preparing, running, applies, adoptions, withdrawn)
      && Tokens(form, catalogToken, nextToken, applies)
      && Halted(form, Waiting(), applies, withdrawn)
      && LaneHolds(running, pending, applies)
      && Provenance(form, applies, log)
    }

    constructor (lane: Lane, document: Document)
      ensures Valid(lane, document) && applies == [] && adoptions == [] && !Busy() && entries == None
    {
      open, offset, entries, loaded, loading, preparing, running, querying := false, 0, None, false, false, None, None,
        false;
      form, catalogToken, nextToken := Form(0, 1, None, false, None), 2, 3;
      applies, adoptions, withdrawn := [], [], {};
    }

    predicate Waiting()
      reads this
    {
      preparing.Some? || running.Some?
    }

    predicate Busy()
      reads this
    {
      loading || Waiting() || querying
    }

    predicate Current(document: Document)
      reads this, document
    {
      form.guard.Some? && document.AcceptsEffect(form.guard.value)
    }

    predicate Confirmed()
      reads this
    {
      form.consent == Some(form.token)
    }

    twostate predicate SlotsSame()
      reads this
    {
      && loading == old(loading) && preparing == old(preparing) && running == old(running)
      && applies == old(applies) && adoptions == old(adoptions)
    }

    /** A fresh proposal, with or without a template: what waits in a slot no longer matches it. */
    method Replace(guard: Option<Guard>, captured: bool, lane: Lane, document: Document)
      requires Valid(lane, document) && (guard.Some? ==> Captured(guard.value) in document.log)
      modifies this`form, this`nextToken, this`withdrawn
      ensures Valid(lane, document)
      ensures form == Form(old(nextToken), old(nextToken) + 1, guard, captured, None)
      ensures Waiting() ==> |applies| - 1 in withdrawn
      ensures old(withdrawn) <= withdrawn
    {
      form := Form(nextToken, nextToken + 1, guard, captured, None);
      nextToken := nextToken + 2;
      if Waiting() { withdrawn := withdrawn + {|applies| - 1}; }
    }

    /** A changed input: the same instance under a new token, without consent. */
    method Change(lane: Lane, document: Document)
      requires Valid(lane, document)
      modifies this`form, this`nextToken, this`withdrawn
      ensures Valid(lane, document) && form == old(form).(token := old(nextToken), consent := None)
      ensures Waiting() ==> |applies| - 1 in withdrawn
      ensures old(withdrawn) <= withdrawn
    {
      form := form.(token := nextToken, consent := None);
      nextToken := nextToken + 1;
      if Waiting() { withdrawn := withdrawn + {|applies| - 1}; }
    }

    method SetConsent(confirmed: bool, lane: Lane, document: Document)
      requires Valid(lane, document) && (confirmed ==> !Waiting()) && (!confirmed ==> form.captured)
      modifies this`form, this`withdrawn
      ensures Valid(lane, document) && form == old(form).(consent := if confirmed then Some(form.token) else None)
      ensures !confirmed && Waiting() ==> |applies| - 1 in withdrawn
      ensures old(withdrawn) <= withdrawn
    {
      form := form.(consent := if confirmed then Some(form.token) else None);
      if !confirmed && Waiting() { withdrawn := withdrawn + {|applies| - 1}; }
    }

    method ClearConsent(lane: Lane, document: Document)
      requires Valid(lane, document)
      modifies this`form
      ensures Valid(lane, document) && form == old(form).(consent := None)
    {
      form := form.(consent := None);
    }

    method RefreshPlugins(lane: Lane, document: Document)
      requires Valid(lane, document)
      modifies this
      ensures Valid(lane, document) && SlotsSame() && form.token >= old(nextToken) && form.consent.None?
    {
      querying := *;
      Replace(None, false, lane, document);
    }

    /** No slot is taken, and neither is the lane. */
    predicate Idle(lane: Lane)
      reads this, lane
    {
      !loading && preparing.None? && running.None? && !querying && lane.pending.None?
    }

    /** Which actions go through. */
    predicate May(action: Action, document: Document, lane: Lane, revision: Option<nat>)
      reads this, document, lane
    {
      match action
      case Confirm(proposal, confirmed) =>
        proposal == form.token && Current(document) && form.captured && (confirmed ==> !Waiting())
      case EditInput(token, valid) =>
        document.mode == Authoring && token == form.inputToken && Current(document) && valid
      case Select(catalog, _, valid) =>
        document.mode == Authoring && Idle(lane) && catalog == catalogToken && entries.Some? && valid
      case Page(catalog, to) =>
        document.mode == Authoring && catalog == catalogToken && to < entries.GetOr(0)
        && (to == Max(0, offset - PAGE) || to == offset + PAGE)
      case Load(pathBytes) => document.mode == Authoring && Idle(lane) && pathBytes <= MAX_PATH
      case Reload => document.mode == Authoring && Idle(lane) && loaded
      case Dependencies(_, _) => document.mode == Authoring && !Waiting() && lane.pending.None?
      case Apply(proposal, resolved) =>
        document.mode == Authoring && Idle(lane) && proposal == form.token && Current(document)
        && (form.captured ==> Confirmed()) && resolved && revision.Some?
      case _ => true
    }

    /** The proposal after an action that went through. */
    function FormAfter(action: Action, document: Document): Form
      reads this, document
    {
      match action
      case Close | Cancel | Load(_) | Reload => Form(nextToken, nextToken + 1, None, false, None)
      case Select(_, captured, _) =>
        Form(nextToken, nextToken + 1, Some(Guard(document.scope, document.view.revision)), captured, None)
      case Confirm(_, confirmed) => form.(consent := if confirmed then Some(form.token) else None)
      case EditInput(_, _) => form.(token := nextToken, consent := None)
      case Dependencies(true, _) => form.(token := nextToken, consent := None)
      case _ => form
    }

    /** Everything a window action does; an error on the current proposal's Apply withdraws its consent. */
    method Act(action: Action, document: Document, lane: Lane, revision: Option<nat>) returns (ok: bool)
      requires document.Valid() && Valid(lane, document)
      modifies this, lane, document`log
      ensures document.Valid() && Valid(lane, document)
      ensures old(document.log) <= document.log
      ensures adoptions == old(adoptions) && old(withdrawn) <= withdrawn
      ensures action.Apply? && ok ==> Applied(action.proposal, document, lane, revision)
      ensures !(action.Apply? && ok) ==> applies == old(applies) && preparing == old(preparing)
      ensures running == old(running)
      ensures ok && (action.Cancel? || action.Close?) ==> form.guard.None? && form.consent.None?
      ensures ok && (action.Cancel? || action.Close?) && running.Some? ==>
        lane.pending.Some? && lane.pending.value.cancelled
      ensures ok && (action.Cancel? || action.Close?) && Waiting() ==> |applies| - 1 in withdrawn
      ensures ok && action == EditInput(old(form).inputToken, true) && Waiting() ==> |applies| - 1 in withdrawn
      ensures ok && action == Confirm(old(form).token, false) && Waiting() ==> |applies| - 1 in withdrawn
      ensures form.consent.Some? && form.consent != old(form).consent ==>
        ok && action == Confirm(form.token, true) && form.captured && Current(document)
      ensures !ok && action.Apply? && action.proposal == form.token && !Waiting() ==> form.consent.None?
      ensures open == (if action.Open? then true else if action.Close? then false else old(open))
      ensures offset == if ok && action.Page? then action.offset else old(offset)
      ensures loading <==> old(loading) || (ok && (action.Load? || action.Reload?))
      ensures loaded <==> old(loaded) && !(ok && action.Reload?)
      ensures querying <==> old(querying) || (ok && action.Dependencies? && action.queries)
      ensures entries == old(entries) && catalogToken == old(catalogToken)
      ensures lane.pending ==
              if ok && old(running.Some? && lane.pending.Some?)
                 && (action.Cancel? || action.Close? || (action.Confirm? && !action.confirmed))
              then Some(Pending(old(lane.pending).value.guard, true)) else old(lane.pending)
      ensures action.Open? || action.Close? || action.Cancel? || action.PickDirectory? || action.Poll? ==> ok
      ensures action.Confirm? ==>
        (ok <==> action.proposal == old(form).token && old(form).captured
                 && old(document.mode == Authoring && form.guard == Some(Guard(document.scope, document.view.revision)))
                 && (action.confirmed ==> old(preparing.None? && running.None?)))
      ensures action.EditInput? ==>
        (ok <==> action.form == old(form).inputToken && action.valid
                 && old(document.mode == Authoring
                        && form.guard == Some(Guard(document.scope, document.view.revision))))
      ensures action.Select? ==>
        (ok <==> old(document.mode).Authoring? && action.catalog == old(catalogToken) && old(entries).Some?
                 && action.valid
                 && old(!loading && preparing.None? && running.None? && !querying && lane.pending.None?))
      ensures action.Page? ==>
        (ok <==> old(document.mode).Authoring? && action.catalog == old(catalogToken) && old(entries).Some?
                 && action.offset < old(entries).value
                 && (action.offset == old(offset) + 24 || action.offset + 24 == old(offset)
                     || (action.offset == 0 && old(offset) < 24)))
      ensures action.Load? ==>
        (ok <==> old(document.mode).Authoring? && action.pathBytes <= 4096
                 && old(!loading && preparing.None? && running.None? && !querying && lane.pending.None?))
      ensures action.Reload? ==>
        (ok <==> old(document.mode).Authoring? && old(loaded)
                 && old(!loading && preparing.None? && running.None? && !querying && lane.pending.None?))
      ensures action.Dependencies? ==>
        (ok <==> old(document.mode).Authoring? && old(preparing.None? && running.None? && lane.pending.None?))
      ensures action.Apply? ==>
        (ok <==> action.proposal == old(form).token && action.resolved && revision.Some?
                 && old(document.mode == Authoring && form.guard == Some(Guard(document.scope, document.view.revision)))
                 && (old(form).captured ==> old(form).consent == Some(old(form).token))
                 && old(!loading && preparing.None? && running.None? && !querying && lane.pending.None?))
      ensures ok && (action.Close? || action.Cancel? || action.Load? || action.Reload?) ==>
        form == Form(old(nextToken), old(nextToken) + 1, None, false, None)
      ensures ok && action.Select? ==>
        form == Form(old(nextToken), old(nextToken) + 1, Some(Guard(document.scope, document.view.revision)),
                     action.captured, None)
      ensures ok && action.Confirm? ==>
        form == old(form).(consent := if action.confirmed then Some(old(form).token) else None)
      ensures ok && (action.EditInput? || (action.Dependencies? && action.rebinds)) ==>
        form == old(form).(token := old(nextToken), consent := None)
      ensures ok && (action.Open? || action.Poll? || action.PickDirectory? || action.Page? || action.Apply?) ==>
        form == old(form)
      ensures ok && action.Dependencies? && !action.rebinds ==> form == old(form)
      ensures !ok ==>
        form == if action.Apply? && action.proposal == old(form).token && old(preparing.None? && running.None?)
                then old(form).(consent := None) else old(form)
    {
      hide Slots, Tokens, Halted, LaneHolds, Provenance;
      ok := ActInner(action, document, lane, revision);
      if !ok && action.Apply? && action.proposal == form.token && preparing.None? && running.None? {
        ClearConsent(lane, document);
      }
    }

    /**
     What an accepted Apply records: the current proposal, its guard still good, consent given if history is captured.
     */
    twostate predicate Applied(proposal: nat, document: Document, lane: Lane, revision: Option<nat>)
      reads this, document, lane
    {
      && proposal == form.token && form == old(form) && revision.Some? && form.guard.Some?
      && old(document.AcceptsEffect(form.guard.value)) && (form.captured ==> Confirmed())
      && applies == old(applies) + [Request(form.token, form.guard.value, revision.value, form.captured)]
      && preparing == Some(Preparing(form.token, form.guard.value, revision.value))
      && !old(Busy()) && old(lane.pending).None?
    }

    method ActInner(action: Action, document: Document, lane: Lane, revision: Option<nat>) returns (ok: bool)
      requires document.Valid() && Valid(lane, document)
      modifies this, lane, document`log
      ensures document.Valid() && Valid(lane, document)
      ensures old(document.log) <= document.log
      ensures adoptions == old(adoptions) && old(withdrawn) <= withdrawn
      ensures action.Apply? && ok ==> Applied(action.proposal, document, lane, revision)
      ensures !(action.Apply? && ok) ==> applies == old(applies) && preparing == old(preparing)
      ensures running == old(running)
      ensures ok && (action.Cancel? || action.Close?) && running.Some? ==>
        lane.pending.Some? && lane.pending.value.cancelled
      ensures ok && (action.Cancel? || action.Close?) && Waiting() ==> |applies| - 1 in withdrawn
      ensures ok && action == EditInput(old(form).inputToken, true) && Waiting() ==> |applies| - 1 in withdrawn
      ensures ok && action == Confirm(old(form).token, false) && Waiting() ==> |applies| - 1 in withdrawn
      ensures open == (if action.Open? then true else if action.Close? then false else old(open))
      ensures offset == if ok && action.Page? then action.offset else old(offset)
      ensures loading <==> old(loading) || (ok && (action.Load? || action.Reload?))
      ensures loaded <==> old(loaded) && !(ok && action.Reload?)
      ensures querying <==> old(querying) || (ok && action.Dependencies? && action.queries)
      ensures entries == old(entries) && catalogToken == old(catalogToken)
      ensures lane.pending ==
              if ok && old(running.Some? && lane.pending.Some?)
                 && (action.Cancel? || action.Close? || (action.Confirm? && !action.confirmed))
              then Some(Pending(old(lane.pending).value.guard, true)) else old(lane.pending)
      ensures ok <==> old(May(action, document, lane, revision))
      ensures form == if ok then old(FormAfter(action, document)) else old(form)
    {
      hide Slots, Tokens, Halted, LaneHolds, Provenance, Applied;
      match action {
        case Open =>
          open := true;
          return true;
        case Cancel =>
          WithdrawForm(lane, document);
          return true;
        case Close =>
          WithdrawForm(lane, document);
          open := false;
          return true;
        case Poll => return true;
        case PickDirectory => return true;
        case Confirm(proposal, confirmed) =>
          ok := GiveConsent(proposal, confirmed, document, lane);
          return;
        case _ =>
      }
      if document.mode != Authoring { return false; }
      ok := ActAuthoring(action, document, lane, revision);
    }

    /** Consent is given to the present proposal while nothing is under way, and may be withdrawn at any time. */
    method GiveConsent(proposal: nat, confirmed: bool, document: Document, lane: Lane) returns (ok: bool)
      requires document.Valid() && Valid(lane, document)
      modifies this`form, this`withdrawn, lane
      ensures Valid(lane, document) && old(withdrawn) <= withdrawn
      ensures ok <==>
        proposal == old(form).token && old(Current(document)) && old(form).captured && (confirmed ==> !old(Waiting()))
      ensures form == if ok then old(form).(consent := if confirmed then Some(old(form).token) else None) else old(form)
      ensures lane.pending == if ok && !confirmed && old(running.Some? && lane.pending.Some?)
                              then Some(Pending(old(lane.pending).value.guard, true)) else old(lane.pending)
      ensures ok && !confirmed && Waiting() ==> |applies| - 1 in withdrawn
    {
      hide Slots, Tokens, Halted, LaneHolds, Provenance;
      if proposal != form.token || !Current(document) || !form.captured { return false; }
      if confirmed && (preparing.Some? || running.Some?) { return false; }
      SetConsent(confirmed, lane, document);
      if !confirmed && running.Some? { CancelLane(lane, document); }
      ok := true;
    }

    /** The actions that need Authoring: one background slot, current tokens, and consent before captured physics. */
    method ActAuthoring(action: Action, document: Document, lane: Lane, revision: Option<nat>) returns (ok: bool)
      requires document.Valid() && Valid(lane, document) && document.mode == Authoring
      requires !action.Open? && !action.Close? && !action.Cancel? && !action.PickDirectory? && !action.Poll?
      requires !action.Confirm?
      modifies this, document`log
      ensures document.Valid() && Valid(lane, document) && running == old(running)
      ensures old(document.log) <= document.log
      ensures adoptions == old(adoptions) && old(withdrawn) <= withdrawn
      ensures action.Apply? && ok ==> Applied(action.proposal, document, lane, revision)
      ensures !(action.Apply? && ok) ==> applies == old(applies) && preparing == old(preparing)
      ensures ok && action == EditInput(old(form).inputToken, true) && Waiting() ==> |applies| - 1 in withdrawn
      ensures loading == (old(loading) || (ok && (action.Load? || action.Reload?)))
      ensures offset == if ok && action.Page? then action.offset else old(offset)
      ensures loaded <==> old(loaded) && !(ok && action.Reload?)
      ensures querying <==> old(querying) || (ok && action.Dependencies? && action.queries)
      ensures open == old(open) && entries == old(entries) && catalogToken == old(catalogToken)
      ensures ok <==> old(May(action, document, lane, revision))
      ensures form == if ok then old(FormAfter(action, document)) else old(form)
    {
      hide Slots, Tokens, Halted, LaneHolds, Provenance, Applied;
      match action {
        case EditInput(token, valid) =>
          if token != form.inputToken || !Current(document) || !valid { return false; }
          Change(lane, document);
        case Select(catalog, captured, valid) =>
          if Busy() || lane.pending.Some? { return false; }
          if catalog != catalogToken || entries.None? || !valid { return false; }
          Choose(captured, lane, document);
        case Page(_, _) =>
          ok := ActListing(action, document, lane);
          return;
        case Load(_) =>
          ok := ActListing(action, document, lane);
          return;
        case Reload =>
          ok := ActListing(action, document, lane);
          return;
        case Dependencies(rebinds, queries) =>
          if preparing.Some? || running.Some? || lane.pending.Some? { return false; }
          if rebinds { Change(lane, document); }
          if queries { querying := true; }
        case Apply(proposal, resolved) =>
          ok := ApplyProposal(proposal, resolved, document, lane, revision);
          return;
        case _ =>
      }
      ok := true;
    }

    /** Turning a page, and loading a listing into an idle slot. */
    method ActListing(action: Action, document: Document, lane: Lane) returns (ok: bool)
      requires document.Valid() && Valid(lane, document) && document.mode == Authoring
      requires action.Page? || action.Load? || action.Reload?
      modifies this`offset, this`loaded, this`loading, this`form, this`nextToken, this`withdrawn
      ensures Valid(lane, document) && old(withdrawn) <= withdrawn
      ensures loading == (old(loading) || (ok && !action.Page?))
      ensures offset == if ok && action.Page? then action.offset else old(offset)
      ensures loaded <==> old(loaded) && !(ok && action.Reload?)
      ensures ok <==> old(May(action, document, lane, None))
      ensures form == if ok then old(FormAfter(action, document)) else old(form)
    {
      hide Slots, Tokens, Halted, LaneHolds, Provenance;
      match action {
        case Page(catalog, offset') =>
          var len := entries.GetOr(0);
          if catalog != catalogToken || offset' >= len
            || !(offset' == Max(0, offset - PAGE) || offset' == offset + PAGE) { return false; }
          offset := offset';
        case Load(pathBytes) =>
          if Busy() || lane.pending.Some? || pathBytes > MAX_PATH { return false; }
          StartLoad(lane, document);
        case Reload =>
          if Busy() || lane.pending.Some? || !loaded { return false; }
          loaded := false;
          StartLoad(lane, document);
      }
      ok := true;
    }

    method CancelLane(lane: Lane, document: Document)
      requires Valid(lane, document)
      modifies lane
      ensures Valid(lane, document)
      ensures lane.pending == if old(lane.pending).None? then None
        else Some(Pending(old(lane.pending).value.guard, true))
    {
      lane.CancelPending();
    }

    /** A request is recorded only for the current proposal, with idle slots and, for captured physics, consent. */
    method ApplyProposal(proposal: nat, resolved: bool, document: Document, lane: Lane, revision: Option<nat>)
      returns (ok: bool)
      requires document.Valid() && Valid(lane, document)
      modifies this`preparing, this`applies
      ensures Valid(lane, document)
      ensures ok <==>
        old(Idle(lane) && proposal == form.token && Current(document) && (form.captured ==> Confirmed()))
        && resolved && revision.Some?
      ensures ok ==> Applied(proposal, document, lane, revision)
      ensures !ok ==> applies == old(applies) && preparing == old(preparing)
    {
      hide Slots, Tokens, Halted, LaneHolds, Provenance;
      if Busy() || lane.pending.Some? { return false; }
      if proposal != form.token || !Current(document) { return false; }
      if form.captured && !Confirmed() { return false; }
      if !resolved || revision.None? { return false; }
      StartPreparing(lane, document, revision.value);
      ok := true;
    }

    method WithdrawForm(lane: Lane, document: Document)
      requires Valid(lane, document)
      modifies this`form, this`nextToken, this`withdrawn, lane
      ensures Valid(lane, document) && form == Form(old(nextToken), old(nextToken) + 1, None, false, None)
      ensures Waiting() ==> |applies| - 1 in withdrawn
      ensures running.Some? ==> lane.pending.Some? && lane.pending.value.cancelled
      ensures lane.pending == if old(running.Some? && lane.pending.Some?)
                              then Some(Pending(old(lane.pending).value.guard, true)) else old(lane.pending)
      ensures old(withdrawn) <= withdrawn
    {
      hide Slots, Tokens, Halted, Provenance;
      if running.Some? { CancelLane(lane, document); }
      Replace(None, false, lane, document);
    }

    method Choose(captured: bool, lane: Lane, document: Document)
      requires document.Valid() && Valid(lane, document) && document.mode == Authoring
      modifies this`form, this`nextToken, this`withdrawn, document`log
      ensures document.Valid() && Valid(lane, document) && Current(document) && form.consent.None?
      ensures form == Form(old(nextToken), old(nextToken) + 1, Some(Guard(document.scope, document.view.revision)),
                           captured, None)
      ensures old(document.log) <= document.log
      ensures old(withdrawn) <= withdrawn
    {
      hide Slots, Tokens, Halted, LaneHolds, Provenance;
      ghost var before := document.log;
      var guard := document.AuthoringGuard();
      ProvenanceOutlives(form, applies, before, document.log);
      assert document.log[|before|] == Captured(guard.value);
      Replace(guard, captured, lane, document);
    }

    method StartLoad(lane: Lane, document: Document)
      requires Valid(lane, document) && !Waiting()
      modifies this`loading, this`form, this`nextToken, this`withdrawn
      ensures Valid(lane, document) && loading
      ensures form == Form(old(nextToken), old(nextToken) + 1, None, false, None)
      ensures old(withdrawn) <= withdrawn
    {
      loading := true;
      Replace(None, false, lane, document);
    }

    method StartPreparing(lane: Lane, document: Document, revision: nat)
      requires Valid(lane, document) && !Busy() && form.guard.Some?
      modifies this`preparing, this`applies
      ensures Valid(lane, document)
      ensures preparing == Some(Preparing(form.token, form.guard.value, revision))
      ensures applies == old(applies) + [Request(form.token, form.guard.value, revision, form.captured)]
    {
      preparing := Some(Preparing(form.token, form.guard.value, revision));
      applies := applies + [Request(form.token, form.guard.value, revision, form.captured)];
    }

    /** Before the lane is polled: an effect whose proposal, consent or document moved on is cancelled. */
    method BeforeScientific(document: Document, lane: Lane)
      requires Valid(lane, document)
      modifies lane
      ensures Valid(lane, document)
      ensures running.Some? && !lane.pending.value.cancelled ==>
        running.value == form.token && Confirmed() && Current(document)
      ensures running.None? ==> lane.pending == old(lane.pending)
      ensures lane.pending ==
              if running.Some? && !(running.value == form.token && form.consent == Some(form.token)
                                    && Current(document))
              then Some(Pending(old(lane.pending).value.guard, true)) else old(lane.pending)
    {
      hide Slots, Tokens, Halted, Provenance;
      if running.Some? && (running.value != form.token || !Confirmed()
                           || !Current(document)) { CancelLane(lane, document); }
    }

    /** After the lane was polled: a running effect that left it is settled, for better or worse. */
    method AfterScientific(document: Document, lane: Lane, accepted: bool)
      requires Slots(loading, preparing, running, applies, adoptions, withdrawn)
      requires Tokens(form, catalogToken, nextToken, applies)
      requires Halted(form, Waiting(), applies, withdrawn) && Provenance(form, applies, document.log)
      requires lane.pending.Some? ==> LaneHolds(running, lane.pending, applies)
      requires running.Some? && lane.pending.None? && accepted ==> |applies| - 1 !in withdrawn
      modifies this`running, this`adoptions, this`form, this`nextToken
      ensures Valid(lane, document)
      ensures adoptions == if old(running).Some? && lane.pending.None? && accepted then old(adoptions) + [|applies| - 1]
        else old(adoptions)
      ensures running == if lane.pending.None? then None else old(running)
      ensures old(running).None? ==> form == old(form)
      ensures adoptions != old(adoptions) ==> form.guard.None? && form.consent.None?
      ensures old(running).Some? && lane.pending.None? ==> form.consent.None?
      ensures form == (if old(running).None? || lane.pending.Some? then old(form)
                       else if accepted then Form(old(nextToken), old(nextToken) + 1, None, false, None)
                       else old(form).(consent := None))
      ensures nextToken >= old(nextToken)
    {
      if running.Some? && lane.pending.None? {
        running := None;
        if accepted {
          adoptions := adoptions + [|applies| - 1];
          form := Form(nextToken, nextToken + 1, None, false, None);
          nextToken := nextToken + 2;
        } else {
          form := form.(consent := None);
        }
      }
    }

    /** A finished load replaces the listing under a new token; a failed one leaves it. */
    method PollLoading(loadDone: Option<Option<nat>>, lane: Lane, document: Document)
      requires Valid(lane, document)
      modifies this`loading, this`entries, this`loaded, this`catalogToken, this`nextToken, this`offset
      ensures Valid(lane, document)
      ensures loading <==> old(loading) && loadDone.None?
      ensures old(loading) && loadDone.Some? && loadDone.value.Some? ==>
        entries == loadDone.value && loaded && catalogToken == old(nextToken) && offset == 0
      ensures !(old(loading) && loadDone.Some? && loadDone.value.Some?) ==>
        entries == old(entries) && loaded == old(loaded) && catalogToken == old(catalogToken) && offset == old(offset)
    {
      if loading && loadDone.Some? {
        loading := false;
        if loadDone.value.Some? {
          entries, loaded, catalogToken, nextToken, offset := loadDone.value, true, nextToken, nextToken + 1, 0;
        }
      }
    }

    method PollQuery(queryDone: bool, lane: Lane, document: Document)
      requires Valid(lane, document)
      modifies this`querying
      ensures Valid(lane, document) && querying == (old(querying) && !queryDone)
    {
      if queryDone { querying := false; }
    }

    /** The Apply's token, document incarnation and revision, inventory revision and consent all still hold. */
    ghost predicate StillStands(p: Preparing, document: Document, revision: Option<nat>)
      reads this, document
    {
      Stands(form, p, document.mode, Guard(document.scope, document.view.revision), revision)
    }

    /** A finished preparation of edits that still stands, and that the document takes. */
    ghost predicate Adopts(document: Document, revision: Option<nat>, prepared: Option<Option<Ready>>, gateOpen: bool)
      reads this, document
    {
      && preparing.Some? && prepared.Some? && prepared.value.Some? && prepared.value.value.Direct?
      && StillStands(preparing.value, document, revision)
      && WouldEdit(document, preparing.value.guard, prepared.value.value.commands, prepared.value.value.schemas,
                   gateOpen)
    }

    /** A finished preparation of history that still stands. */
    ghost predicate Hands(document: Document, revision: Option<nat>, prepared: Option<Option<Ready>>)
      reads this, document
    {
      && preparing.Some? && prepared.Some? && prepared.value.Some? && prepared.value.value.Scientific?
      && StillStands(preparing.value, document, revision)
    }

    /** Adopt finished edits through the guarded edit; a refusal there leaves the proposal standing. */
    method AdoptDirect(document: Document, lane: Lane, p: Preparing, commands: seq<DA.EditCommand>, schemas: DA.Schemas,
                       gateOpen: bool) returns (accepted: bool)
      requires document.Valid() && Valid(lane, document) && preparing == Some(p)
      requires |applies| - 1 !in withdrawn && running.None?
      modifies this`preparing, this`form, this`nextToken, this`adoptions, document
      ensures document.Valid() && Valid(lane, document) && preparing.None?
      ensures adoptions == if accepted then old(adoptions) + [|applies| - 1] else old(adoptions)
      ensures accepted ==>
        document.authority.revision == old(document.authority.revision) + 1
        && Pristine(old(document.log), p.guard)
      ensures accepted <==> old(WouldEdit(document, p.guard, commands, schemas, gateOpen))
      ensures accepted ==> document.rules.update(old(document.authority.contents), commands, schemas)
                           == Some(document.authority.contents)
      ensures accepted ==> form.guard.None? && form.consent.None?
      ensures old(document.log) <= document.log
      ensures accepted ==> OneInvalidation(old(document.log), document.log)
      ensures !accepted ==> document.log == old(document.log) && form == old(form)
      ensures !accepted ==> document.authority.contents == old(document.authority.contents)
    {
      hide Slots, Tokens, Halted, LaneHolds, Provenance;
      ghost var before := document.log;
      accepted := document.EditGuarded(p.guard, commands, Some(schemas), gateOpen);
      ProvenanceOutlives(form, applies, before, document.log);
      if accepted { Adopt(lane, document); } else { Vacate(lane, document); }
    }

    /** Hand finished inputs to the lane, which may be occupied or unable. */
    method AdoptScientific(document: Document, lane: Lane, p: Preparing, able: bool) returns (begun: bool)
      requires Valid(lane, document) && preparing == Some(p) && running.None?
      modifies this`preparing, this`running, this`form, lane
      ensures Valid(lane, document) && preparing.None?
      ensures begun <==> old(lane.pending).None? && document.AcceptsEffect(p.guard) && able
      ensures running == if begun then Some(p.generation) else None
      ensures form == if begun then old(form) else old(form).(consent := None)
      ensures lane.pending == if begun then Some(Pending(p.guard, false)) else old(lane.pending)
    {
      hide Slots, Tokens, Halted, Provenance;
      begun := lane.Begin(document, p.guard, able);
      if begun { HandOver(lane, document, p); } else { Discard(lane, document); }
    }

    /** A finished preparation is adopted, handed on to the lane, or discarded as stale. */
    method PollPreparing(document: Document, lane: Lane, revision: Option<nat>, prepared: Option<Ready>, able: bool,
                         gateOpen: bool)
      requires document.Valid() && Valid(lane, document) && preparing.Some?
      modifies this`preparing, this`running, this`form, this`nextToken, this`adoptions, lane, document
      ensures document.Valid() && Valid(lane, document) && preparing.None?
      ensures adoptions == old(adoptions) || adoptions == old(adoptions) + [|applies| - 1]
      ensures adoptions != old(adoptions) ==>
        old(StillStands(preparing.value, document, revision)) && prepared.Some? && prepared.value.Direct?
      ensures adoptions != old(adoptions) ==> document.authority.revision == old(document.authority.revision) + 1
      ensures adoptions != old(adoptions) ==> Pristine(old(document.log), old(preparing).value.guard)
      ensures running.Some? ==>
        old(StillStands(preparing.value, document, revision)) && prepared.Some?
        && prepared.value.Scientific? && old(lane.pending).None?
      ensures running.Some? ==> running == Some(old(preparing).value.generation)
      ensures !old(StillStands(preparing.value, document, revision)) || prepared.None? ==>
        form == old(form).(consent := None)
      ensures adoptions == old(adoptions) ==> document.log == old(document.log)
      ensures old(document.log) <= document.log
      ensures adoptions != old(adoptions) <==>
        && old(StillStands(preparing.value, document, revision)) && prepared.Some? && prepared.value.Direct?
        && old(WouldEdit(document, preparing.value.guard, prepared.value.commands, prepared.value.schemas, gateOpen))
      ensures adoptions != old(adoptions) ==>
        document.rules.update(old(document.authority.contents), prepared.value.commands, prepared.value.schemas)
        == Some(document.authority.contents)
        && form.guard.None? && form.consent.None?
      ensures running.Some? <==>
        && old(StillStands(preparing.value, document, revision)) && prepared.Some? && prepared.value.Scientific?
        && old(lane.pending).None? && able
      ensures running.Some? ==> lane.pending == Some(Pending(old(preparing).value.guard, false)) && form == old(form)
      ensures running.None? ==> lane.pending == old(lane.pending)
      ensures adoptions == old(adoptions) ==> document.authority.contents == old(document.authority.contents)
      ensures running.None? && adoptions == old(adoptions) ==>
        form == (if old(StillStands(preparing.value, document, revision)) && prepared.Some? && prepared.value.Direct?
                 then old(form) else old(form).(consent := None))
      ensures prepared.Some? && prepared.value.Scientific? ==> Untouched(document)
    {
      hide Slots, Tokens, Halted, LaneHolds, Provenance, Pristine, OneInvalidation, WouldEdit;
      var p := preparing.value;
      GuardWasCaptured(lane, document);
      if !document.AcceptsEffect(p.guard) || form.token != p.generation || revision != Some(p.revision)
         || (form.captured && !Confirmed()) || prepared.None?
      {
        Discard(lane, document);
        return;
      }
      StandingIsNotWithdrawn(lane, document);
      match prepared.value {
        case Direct(commands, schemas) =>
          var accepted := AdoptDirect(document, lane, p, commands, schemas, gateOpen);
        case Scientific =>
          var begun := AdoptScientific(document, lane, p, able);
      }
    }

    lemma StandingIsNotWithdrawn(lane: Lane, document: Document)
      requires Valid(lane, document) && Waiting()
      ensures applies != []
      ensures form.token == applies[|applies| - 1].token && (form.captured ==> Confirmed()) ==>
        |applies| - 1 !in withdrawn
      ensures preparing.Some? ==> Matches(preparing.value, applies[|applies| - 1])
    {
    }

    method Vacate(lane: Lane, document: Document)
      requires Valid(lane, document)
      modifies this`preparing
      ensures Valid(lane, document) && preparing.None?
    {
      preparing := None;
    }

    method Discard(lane: Lane, document: Document)
      requires Valid(lane, document)
      modifies this`preparing, this`form
      ensures Valid(lane, document) && preparing.None? && form == old(form).(consent := None)
    {
      preparing, form := None, form.(consent := None);
    }

    method Adopt(lane: Lane, document: Document)
      requires Valid(lane, document) && preparing.Some? && |applies| - 1 !in withdrawn
      modifies this`preparing, this`form, this`nextToken, this`adoptions
      ensures Valid(lane, document) && preparing.None? && form.guard.None? && form.consent.None?
      ensures adoptions == old(adoptions) + [|applies| - 1]
    {
      preparing := None;
      adoptions := adoptions + [|applies| - 1];
      form := Form(nextToken, nextToken + 1, None, false, None);
      nextToken := nextToken + 2;
    }

    method HandOver(lane: Lane, document: Document, p: Preparing)
      requires Slots(loading, preparing, running, applies, adoptions, withdrawn)
      requires Tokens(form, catalogToken, nextToken, applies)
      requires Halted(form, Waiting(), applies, withdrawn) && Provenance(form, applies, document.log)
      requires preparing == Some(p) && lane.pending == Some(Pending(p.guard, false))
      modifies this`preparing, this`running
      ensures Valid(lane, document) && preparing.None? && running == Some(p.generation)
    {
      preparing, running := None, Some(p.generation);
    }

    lemma GuardWasCaptured(lane: Lane, document: Document)
      requires Valid(lane, document) && preparing.Some?
      ensures applies != [] && Matches(preparing.value, applies[|applies| - 1]) && running.None?
      ensures Captured(preparing.value.guard) in document.log
    {
    }

    lemma RunningIsNotWithdrawn(lane: Lane, document: Document)
      requires Valid(lane, document) && running.Some?
      ensures applies != [] && running.value == applies[|applies| - 1].token && preparing.None?
      ensures lane.pending.Some? && lane.pending.value.guard == applies[|applies| - 1].guard
      ensures running.value == form.token && Confirmed() ==> |applies| - 1 !in withdrawn
    {
    }

    /** The lane's turn: its effect is adopted only for the proposal, consent and document it was begun for. */
    method LaneTick(document: Document, lane: Lane, finished: bool, outcome: Option<Ready>, late: bool, gateOpen: bool,
                    ghost revision: Option<nat>) returns (accepted: bool)
      requires document.Valid() && Valid(lane, document)
      requires running.Some? && !lane.pending.value.cancelled ==>
        running.value == form.token && Confirmed() && Current(document)
      modifies this`running, this`adoptions, this`form, this`nextToken, lane, document
      ensures document.Valid() && Valid(lane, document)
      ensures old(document.log) <= document.log
      ensures adoptions == if old(running).Some? && accepted then old(adoptions) + [|applies| - 1] else old(adoptions)
      ensures old(running).None? ==> form == old(form) && running.None?
      ensures old(running).Some? && accepted ==>
        && applies != [] && |applies| - 1 !in withdrawn
        && Answers(applies[|applies| - 1], old(form), old(document.mode),
                   Guard(old(document.scope), old(document.view.revision)), old(document.log), true, revision)
        && document.authority.revision == old(document.authority.revision) + 1
      ensures accepted ==> OneInvalidation(old(document.log), document.log)
      ensures !accepted ==>
        document.log == old(document.log) && document.scope == old(document.scope)
        && document.view == old(document.view)
        && document.mode == old(document.mode)
        && document.authority.contents == old(document.authority.contents)
      ensures accepted <==> old(Lands(lane.pending, document, finished, outcome, late, gateOpen))
      ensures accepted ==>
        document.rules.update(old(document.authority.contents), outcome.value.commands, outcome.value.schemas)
        == Some(document.authority.contents)
      ensures lane.pending.Some? <==> old(lane.pending).Some? && !finished
      ensures running == if lane.pending.None? then None else old(running)
      ensures !old(Submits(lane.pending, document, finished, outcome, late)) ==> Untouched(document)
      ensures nextToken >= old(nextToken)
      ensures form == (if old(running).None? || lane.pending.Some? then old(form)
                       else if accepted then Form(old(nextToken), old(nextToken) + 1, None, false, None)
                       else old(form).(consent := None))
      ensures nextToken >= old(nextToken)
    {
      hide Slots, Tokens, Halted, Provenance, Pristine, WouldEdit, Lands, Submits, Untouched;
      if running.Some? { RunningIsNotWithdrawn(lane, document); }
      ghost var before := document.log;
      accepted := lane.PollLane(document, finished, outcome, late, gateOpen);
      assert OneInvalidation(before, document.log) || before == document.log;
      ProvenanceOutlives(form, applies, before, document.log);
      AfterScientific(document, lane, accepted);
    }

    /**
     A polling adopts at most the last Apply, never a withdrawn or already adopted one, and only if it is answered.
     */
    twostate predicate Adoption(document: Document, revision: Option<nat>)
      reads this, document
    {
      && applies != [] && |applies| - 1 !in withdrawn && |applies| - 1 !in old(adoptions)
      && Answers(applies[|applies| - 1], old(form), old(document.mode),
                 Guard(old(document.scope), old(document.view.revision)), old(document.log), old(running).Some?,
                revision)
      && document.authority.revision == old(document.authority.revision) + 1
    }

    /** The lane is entered only for a preparation that still stood. */
    twostate predicate HandedOver(document: Document, revision: Option<nat>)
      reads this, document
    {
      && old(preparing).Some? && old(StillStands(preparing.value, document, revision))
      && running == Some(old(preparing).value.generation)
    }

    lemma WaitingIsNotAdopted(lane: Lane, document: Document)
      requires Valid(lane, document) && Waiting()
      ensures applies != [] && |applies| - 1 !in adoptions
    {
    }

    /**
     The preparation's turn: a finished one is adopted or handed over only if everything it was asked for still stands.
     */
    method PreparedTick(document: Document, lane: Lane, revision: Option<nat>, prepared: Option<Option<Ready>>,
                        able: bool,
                        gateOpen: bool)
      requires document.Valid() && Valid(lane, document)
      modifies this`nextToken, this`preparing, this`running, this`form, this`adoptions, lane, document
      ensures document.Valid() && Valid(lane, document)
      ensures old(document.log) <= document.log
      ensures old(preparing).None? || prepared.None? ==>
        adoptions == old(adoptions) && running == old(running) && document.authority == old(document.authority)
      ensures adoptions == old(adoptions) || adoptions == old(adoptions) + [|applies| - 1]
      ensures adoptions != old(adoptions) || running != old(running) ==>
        old(preparing.Some? && document.AcceptsEffect(preparing.value.guard))
      ensures adoptions != old(adoptions) ==>
        && applies != [] && |applies| - 1 !in withdrawn
        && Answers(applies[|applies| - 1], old(form), old(document.mode),
             Guard(old(document.scope), old(document.view.revision)), old(document.log), false, revision)
        && document.authority.revision == old(document.authority.revision) + 1
      ensures running != old(running) ==>
        running == Some(old(preparing).value.generation) && old(StillStands(preparing.value, document, revision))
      ensures adoptions != old(adoptions) <==> old(Adopts(document, revision, prepared, gateOpen))
      ensures adoptions != old(adoptions) ==>
        document.rules.update(old(document.authority.contents), prepared.value.value.commands,
                              prepared.value.value.schemas) == Some(document.authority.contents)
      ensures running == if old(Hands(document, revision, prepared)) && old(lane.pending).None? && able
                         then Some(old(preparing).value.generation) else old(running)
      ensures adoptions == old(adoptions) ==> document.authority.contents == old(document.authority.contents)
      ensures lane.pending == if old(Hands(document, revision, prepared)) && old(lane.pending).None? && able
                              then Some(Pending(old(preparing).value.guard, false)) else old(lane.pending)
      ensures preparing == if prepared.Some? then None else old(preparing)
      ensures old(Hands(document, revision, prepared)) ==> Untouched(document)
      ensures old(Hands(document, revision, prepared)) && old(lane.pending).None? && able ==> form == old(form)
    {
      hide Slots, Tokens, Halted, LaneHolds, Provenance, Pristine, WouldEdit;
      if preparing.Some? && prepared.Some? {
        GuardWasCaptured(lane, document);
        PreparingMatchesForm(lane, document);
        ghost var p := preparing.value;
        assert StillStands(p, document, revision) ==> document.AcceptsEffect(p.guard);
        StandingAnswers(applies[|applies| - 1], p, form, document.mode, Guard(document.scope, document.view.revision),
          document.log, revision);
        hide Stands, Answers, Matches;
        PollPreparing(document, lane, revision, prepared.value, able, gateOpen);
      }
    }

    /** The slots' turn: a finished load, then a finished preparation. */
    method SlotTick(document: Document, lane: Lane, revision: Option<nat>, loadDone: Option<Option<nat>>,
                    queryDone: bool,
                    prepared: Option<Option<Ready>>, able: bool, gateOpen: bool)
      requires document.Valid() && Valid(lane, document)
      modifies this`loading, this`entries, this`loaded, this`catalogToken, this`nextToken, this`offset, this`querying
      modifies this`preparing, this`running, this`form, this`adoptions, lane, document
      ensures document.Valid() && Valid(lane, document)
      ensures old(document.log) <= document.log
      ensures old(preparing).None? || prepared.None? ==>
        adoptions == old(adoptions) && running == old(running) && document.authority == old(document.authority)
      ensures adoptions == old(adoptions) || adoptions == old(adoptions) + [|applies| - 1]
      ensures adoptions != old(adoptions) || running != old(running) ==>
        old(preparing.Some? && document.AcceptsEffect(preparing.value.guard))
      ensures adoptions != old(adoptions) ==>
        && applies != [] && |applies| - 1 !in withdrawn
        && Answers(applies[|applies| - 1], old(form), old(document.mode),
             Guard(old(document.scope), old(document.view.revision)), old(document.log), false, revision)
        && document.authority.revision == old(document.authority.revision) + 1
      ensures running != old(running) ==>
        running == Some(old(preparing).value.generation) && old(StillStands(preparing.value, document, revision))
      ensures adoptions != old(adoptions) <==> old(Adopts(document, revision, prepared, gateOpen))
      ensures adoptions != old(adoptions) ==>
        document.rules.update(old(document.authority.contents), prepared.value.value.commands,
                              prepared.value.value.schemas) == Some(document.authority.contents)
      ensures running == if old(Hands(document, revision, prepared)) && old(lane.pending).None? && able
                         then Some(old(preparing).value.generation) else old(running)
      ensures adoptions == old(adoptions) ==> document.authority.contents == old(document.authority.contents)
      ensures lane.pending == if old(Hands(document, revision, prepared)) && old(lane.pending).None? && able
                              then Some(Pending(old(preparing).value.guard, false)) else old(lane.pending)
      ensures loading <==> old(loading) && loadDone.None?
      ensures old(loading) && loadDone.Some? && loadDone.value.Some? ==>
        entries == loadDone.value && loaded && catalogToken >= old(nextToken) && offset == 0
      ensures !(old(loading) && loadDone.Some? && loadDone.value.Some?) ==>
        entries == old(entries) && loaded == old(loaded) && catalogToken == old(catalogToken) && offset == old(offset)
      ensures preparing == if prepared.Some? then None else old(preparing)
      ensures old(Hands(document, revision, prepared)) ==> Untouched(document)
      ensures old(Hands(document, revision, prepared)) && old(lane.pending).None? && able ==> form == old(form)
    {
      hide Slots, Tokens, Halted, LaneHolds, Provenance, Pristine, Stands, Answers, Matches, WouldEdit, Valid;
      PollLoading(loadDone, lane, document);
      PollQuery(queryDone, lane, document);
      PreparedTick(document, lane, revision, prepared, able, gateOpen);
    }

    lemma StandingAnswers(request: Request, p: Preparing, form: Form, mode: Mode, present: Guard, log: seq<Happening>,
                          inventory: Option<nat>)
      requires Matches(p, request) && (form.token == p.generation ==> form.captured == request.captured)
      ensures Stands(form, p, mode, present, inventory) && Pristine(log, p.guard) ==>
        Answers(request, form, mode, present, log, false, inventory)
    {
    }

    /** The lane's turn: cancel what is stale, poll, settle; an accepted effect leaves no waiting guard current. */
    method LaneTurn(document: Document, lane: Lane, finished: bool, outcome: Option<Ready>, late: bool, gateOpen: bool,
                    ghost revision: Option<nat>)
      returns (accepted: bool)
      requires document.Valid() && Valid(lane, document)
      modifies this`running, this`adoptions, this`form, this`nextToken, lane, document
      ensures document.Valid() && Valid(lane, document)
      ensures old(document.log) <= document.log
      ensures adoptions == if old(running).Some? && accepted then old(adoptions) + [|applies| - 1] else old(adoptions)
      ensures adoptions != old(adoptions) ==> Adoption(document, revision)
      ensures old(running).None? ==> form == old(form) && running.None?
      ensures old(Waiting()) ==> applies != [] && |applies| - 1 !in old(adoptions)
      ensures nextToken >= old(nextToken)
      ensures old(running).Some? ==> preparing.None?
      ensures accepted && preparing.Some? ==> !document.AcceptsEffect(preparing.value.guard)
      ensures !accepted ==> document.log == old(document.log) && document.scope == old(document.scope)
      ensures !accepted ==> document.view == old(document.view) && document.mode == old(document.mode)
      ensures !accepted ==> document.authority.contents == old(document.authority.contents)
      ensures accepted <==>
        && old(Lands(lane.pending, document, finished, outcome, late, gateOpen))
        && (old(running).Some? ==>
              old(running.value == form.token && form.consent == Some(form.token) && Current(document)))
      ensures accepted ==>
        document.rules.update(old(document.authority.contents), outcome.value.commands, outcome.value.schemas)
        == Some(document.authority.contents)
      ensures lane.pending.Some? <==> old(lane.pending).Some? && !finished
      ensures running == if lane.pending.None? then None else old(running)
      ensures !old(Submits(lane.pending, document, finished, outcome, late)) ==> Untouched(document)
      ensures nextToken >= old(nextToken)
      ensures form == (if old(running).None? || lane.pending.Some? then old(form)
                       else if accepted then Form(old(nextToken), old(nextToken) + 1, None, false, None)
                       else old(form).(consent := None))
    {
      hide Slots, Tokens, Halted, LaneHolds, Provenance, Pristine, OneInvalidation, Answers, Stands, Matches;
      hide WouldEdit;
      if running.Some? { RunningIsNotWithdrawn(lane, document); }
      BeforeScientific(document, lane);
      ghost var before, waiting := document.log, preparing;
      if Waiting() { WaitingIsNotAdopted(lane, document); }
      if preparing.Some? { GuardWasCaptured(lane, document); }
      if running.Some? { RunningIsNotWithdrawn(lane, document); }
      accepted := LaneTick(document, lane, finished, outcome, late, gateOpen, revision);
      if accepted && waiting.Some? { DisturbedIsNeverAccepted(document, before, waiting.value.guard); }
    }

    /** The lane's turn leaves a waiting preparation's prospects as they were, or without any once its effect landed. */
    method LaneFirst(document: Document, lane: Lane, finished: bool, outcome: Option<Ready>, late: bool, gateOpen: bool,
                     ghost revision: Option<nat>, ghost prepared: Option<Option<Ready>>)
      returns (accepted: bool)
      requires document.Valid() && Valid(lane, document)
      modifies this`running, this`adoptions, this`form, this`nextToken, lane, document
      ensures document.Valid() && Valid(lane, document)
      ensures old(document.log) <= document.log
      ensures adoptions == if old(running).Some? && accepted then old(adoptions) + [|applies| - 1] else old(adoptions)
      ensures adoptions != old(adoptions) ==> Adoption(document, revision)
      ensures old(running).None? ==> form == old(form) && running.None?
      ensures old(Waiting()) ==> applies != [] && |applies| - 1 !in old(adoptions)
      ensures nextToken >= old(nextToken)
      ensures old(running).Some? ==> preparing.None?
      ensures accepted && preparing.Some? ==> !document.AcceptsEffect(preparing.value.guard)
      ensures !accepted ==> document.log == old(document.log) && document.scope == old(document.scope)
      ensures !accepted ==> document.view == old(document.view) && document.mode == old(document.mode)
      ensures !accepted ==> document.authority.contents == old(document.authority.contents)
      ensures accepted <==>
        && old(Lands(lane.pending, document, finished, outcome, late, gateOpen))
        && (old(running).Some? ==>
              old(running.value == form.token && form.consent == Some(form.token) && Current(document)))
      ensures accepted ==>
        document.rules.update(old(document.authority.contents), outcome.value.commands, outcome.value.schemas)
        == Some(document.authority.contents)
      ensures lane.pending.Some? <==> old(lane.pending).Some? && !finished
      ensures running == if lane.pending.None? then None else old(running)
      ensures old(running).None? ==>
        Hands(document, revision, prepared) == (!accepted && old(Hands(document, revision, prepared)))
      ensures old(running).None? && accepted ==> !Adopts(document, revision, prepared, gateOpen)
      ensures old(running).None? && !old(Submits(lane.pending, document, finished, outcome, late)) ==>
        !accepted && Untouched(document)
        && Adopts(document, revision, prepared, gateOpen) == old(Adopts(document, revision, prepared, gateOpen))
    {
      hide Slots, Tokens, Halted, LaneHolds, Provenance, Pristine, Answers, Matches, Valid, Decide;
      accepted := LaneTurn(document, lane, finished, outcome, late, gateOpen, revision);
      assert accepted && preparing.Some? ==> !document.AcceptsEffect(preparing.value.guard);
    }

    /** One fold of the window's polling: the lane, then the slots. */
    method Tick(document: Document, lane: Lane, revision: Option<nat>, laneDone: bool, laneOutcome: Option<Ready>,
                late: bool, loadDone: Option<Option<nat>>, queryDone: bool, prepared: Option<Option<Ready>>, able: bool,
                gateOpen: bool)
      requires document.Valid() && Valid(lane, document)
      modifies this, lane, document
      ensures document.Valid() && Valid(lane, document) && applies == old(applies) && withdrawn == old(withdrawn)
      ensures old(document.log) <= document.log
      ensures adoptions == old(adoptions) || adoptions == old(adoptions) + [|applies| - 1]
      ensures adoptions != old(adoptions) ==> Adoption(document, revision)
      ensures old(running).None? && running.Some? ==> HandedOver(document, revision)
      ensures old(running).Some? ==>
        (adoptions != old(adoptions) <==>
           && old(Lands(lane.pending, document, laneDone, laneOutcome, late, gateOpen))
           && old(running.value == form.token && form.consent == Some(form.token) && Current(document)))
      ensures old(running).Some? && adoptions != old(adoptions) ==>
        document.rules.update(old(document.authority.contents), laneOutcome.value.commands, laneOutcome.value.schemas)
        == Some(document.authority.contents)
      ensures old(running).None? && !old(Submits(lane.pending, document, laneDone, laneOutcome, late)) ==>
        (adoptions != old(adoptions) <==> old(Adopts(document, revision, prepared, gateOpen)))
      ensures old(running).None? && !old(Submits(lane.pending, document, laneDone, laneOutcome, late))
              && adoptions != old(adoptions) ==>
        document.rules.update(old(document.authority.contents), prepared.value.value.commands,
                              prepared.value.value.schemas) == Some(document.authority.contents)
      ensures old(running).None? && old(Lands(lane.pending, document, laneDone, laneOutcome, late, gateOpen)) ==>
        adoptions == old(adoptions)
        && document.rules.update(old(document.authority.contents), laneOutcome.value.commands,
                                 laneOutcome.value.schemas) == Some(document.authority.contents)
      ensures old(running).None? ==>
        (running.Some? <==>
           && old(Hands(document, revision, prepared)) && able && (old(lane.pending).None? || laneDone)
           && !old(Lands(lane.pending, document, laneDone, laneOutcome, late, gateOpen)))
      ensures old(running).None? && running.Some? ==>
        running == Some(old(preparing).value.generation)
        && lane.pending == Some(Pending(old(preparing).value.guard, false))
      ensures old(running).Some? ==>
        running == (if laneDone then None else old(running)) && (lane.pending.Some? <==> !laneDone)
      ensures loading <==> old(loading) && loadDone.None?
      ensures old(loading) && loadDone.Some? && loadDone.value.Some? ==>
        entries == loadDone.value && loaded && catalogToken >= old(nextToken) && offset == 0
      ensures !(old(loading) && loadDone.Some? && loadDone.value.Some?) ==>
        entries == old(entries) && loaded == old(loaded) && catalogToken == old(catalogToken) && offset == old(offset)
      ensures preparing == if prepared.Some? then None else old(preparing)
      ensures old(running).None? && running.Some?
              && !old(Submits(lane.pending, document, laneDone, laneOutcome, late)) ==>
        Untouched(document) && form == old(form)
    {
      hide Slots, Tokens, Halted, LaneHolds, Provenance, Pristine, Answers, Stands, Matches, WouldEdit, Submits, Valid;
      hide Adopts, Hands, Lands;
      if running.Some? { RunningIsNotWithdrawn(lane, document); }
      var accepted := LaneFirst(document, lane, laneDone, laneOutcome, late, gateOpen, revision, prepared);
      SlotTick(document, lane, revision, loadDone, queryDone, prepared, able, gateOpen);
    }

    /** While a preparation answers the present token, it was made from the present inputs and is not withdrawn. */
    lemma PreparingMatchesForm(lane: Lane, document: Document)
      requires Valid(lane, document) && preparing.Some?
      ensures applies != [] && Matches(preparing.value, applies[|applies| - 1])
      ensures form.token == preparing.value.generation ==> form.captured == applies[|applies| - 1].captured
      ensures form.token == preparing.value.generation && (form.captured ==> Confirmed()) ==>
        |applies| - 1 !in withdrawn
    {
    }
  }
}
