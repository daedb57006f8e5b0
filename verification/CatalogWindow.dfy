/**
 A window over time: the template controller and the shared lane of TemplateCatalog beside every other way the document
 changes. Whatever happens between an Apply and the polling that answers it, an adoption finds its guard undisturbed.
 */
module CatalogWindow {
  import opened Aggregates
  import DA = DocumentAuthority
  import opened Document
  import opened TemplateCatalog

  /** Everything that can happen next in the window, with what the outside answers. */
  datatype Turn =
    | Acting(action: Action, inventory: Option<nat>)
    | Ticking(inventory: Option<nat>, laneDone: bool, laneOutcome: Option<Ready>, late: bool,
              loadDone: Option<Option<nat>>, queryDone: bool, prepared: Option<Option<Ready>>, able: bool,
                gateOpen: bool)
    | Refreshing
    | Submitting(command: DA.SessionCommand, gateOpen: bool)
    | Guarding
    | Editing(guard: Guard, commands: seq<DA.EditCommand>, schemas: Option<DA.Schemas>, gateOpen: bool)
    | Creating(discard: bool, gateOpen: bool)
    | Opening(loaded: Option<Loaded>, target: DA.Target, discard: bool, gateOpen: bool)
    | Saving(path: Option<DA.Target>, written: bool)
    | Moving(view: nat)
    | Watching(run: nat, remote: bool)
    | Returning
    | Installing(known: DA.Schemas)
    | Beginning(guard: Guard, able: bool)
    | Cancelling

  /** The controller's own invariant does not depend on the document standing still, nor on the lane's other users. */
  lemma ControllerOutlives(controller: Controller, before: Option<Pending>, after: Option<Pending>,
                           log: seq<Happening>, longer: seq<Happening>)
    requires controller.Consistent(before, log) && log <= longer
    requires before.Some? ==> after.Some? && after.value.guard == before.value.guard
    ensures controller.Consistent(after, longer)
  {
    ProvenanceOutlives(controller.form, controller.applies, log, longer);
    hide Slots, Tokens, Halted, Provenance;
  }

  /** One adoption: of which Apply, and how much had happened before it. */
  datatype Adopted = Adopted(request: nat, before: nat)

  /** The Apply's guard had been captured, and nothing that should discard it had happened since. */
  ghost predicate Justified(a: Adopted, applies: seq<Request>, log: seq<Happening>) {
    && a.request < |applies| && a.before <= |log|
    && Captured(applies[a.request].guard) in log[..a.before] && Pristine(log[..a.before], applies[a.request].guard)
  }

  /** The document's own operations, and another form's use of the lane. */
  method OtherTurn(controller: Controller, lane: Lane, document: Document, turn: Turn)
    requires document.Valid() && controller.Valid(lane, document)
    requires !turn.Acting? && !turn.Ticking? && !turn.Refreshing?
    modifies lane, document
    ensures document.Valid() && controller.Valid(lane, document) && old(document.log) <= document.log
  {
    ghost var pending, log := lane.pending, document.log;
    DocumentTurn(document, turn);
    LaneTurn(lane, document, turn);
    ControllerOutlives(controller, pending, lane.pending, log, document.log);
  }

  /** The lane's effect is only ever another's when it was free, and is not replaced before it ends. */
  method LaneTurn(lane: Lane, document: Document, turn: Turn)
    modifies lane
    ensures old(lane.pending).Some? ==> lane.pending.Some? && lane.pending.value.guard == old(lane.pending).value.guard
  {
    if turn.Beginning? {
      var ok := lane.Begin(document, turn.guard, turn.able);
    } else if turn.Cancelling? {
      lane.CancelPending();
    }
  }

  method DocumentTurn(document: Document, turn: Turn)
    requires document.Valid()
    modifies document
    ensures document.Valid() && old(document.log) <= document.log
  {
    hide Tracked, Decide;
    match turn
    case Submitting(command, gateOpen) => var ok := document.SubmitCommand(command, gateOpen);
    case Guarding => var guard := document.AuthoringGuard();
    case Editing(guard, commands, schemas, gateOpen) =>
      var ok := document.EditGuarded(guard, commands, schemas, gateOpen);
    case Creating(discard, gateOpen) => var ok := document.NewExperiment(discard, gateOpen);
    case Opening(loaded, target, discard, gateOpen) => var ok := document.OpenFile(loaded, target, discard, gateOpen);
    case Saving(path, written) => var ok := document.Save(path, written);
    case Moving(view) => var ok := document.MoveView(view);
    case Watching(run, remote) => var ok := document.Observe(run, remote);
    case Returning => var consequence := document.EditInitialConditions();
    case Installing(known) => document.AdoptInstalledSchemas(known);
    case _ =>
  }

  /** One polling adopts only what is justified at that moment. */
  method PollTurn(controller: Controller, lane: Lane, document: Document, turn: Turn)
    requires document.Valid() && controller.Valid(lane, document) && turn.Ticking?
    modifies controller, lane, document
    ensures document.Valid() && controller.Valid(lane, document) && old(document.log) <= document.log
    ensures controller.applies == old(controller.applies)
    ensures Adopts(old(controller.adoptions), controller.adoptions, controller.applies, |old(document.log)|,
                   document.log)
  {
    ghost var before := document.log;
    controller.Tick(document, lane, turn.inventory, turn.laneDone, turn.laneOutcome, turn.late, turn.loadDone,
      turn.queryDone, turn.prepared, turn.able, turn.gateOpen);
    assert before == document.log[..|before|];
  }

  ghost predicate Adopts(before: seq<nat>, after: seq<nat>, applies: seq<Request>, happened: nat, log: seq<Happening>) {
    after == before
    || (applies != [] && after == before + [|applies| - 1] && Justified(Adopted(|applies| - 1, happened), applies, log))
  }

  method TakeTurn(controller: Controller, lane: Lane, document: Document, turn: Turn)
    requires document.Valid() && controller.Valid(lane, document)
    modifies controller, lane, document
    ensures document.Valid() && controller.Valid(lane, document)
    ensures old(document.log) <= document.log && old(controller.applies) <= controller.applies
    ensures Adopts(old(controller.adoptions), controller.adoptions, controller.applies, |old(document.log)|,
                   document.log)
  {
    hide Tracked, Controller.Consistent, Justified;
    match turn
    case Acting(action, inventory) => var ok := controller.Act(action, document, lane, inventory);
    case Ticking(_, _, _, _, _, _, _, _, _) => PollTurn(controller, lane, document, turn);
    case Refreshing => controller.RefreshPlugins(lane, document);
    case _ => OtherTurn(controller, lane, document, turn);
  }

  lemma StaysJustified(a: Adopted, applies: seq<Request>, more: seq<Request>, log: seq<Happening>,
                       longer: seq<Happening>)
    requires Justified(a, applies, log) && applies <= more && log <= longer
    ensures Justified(a, more, longer)
  {
    assert log[..a.before] == longer[..a.before];
  }

  ghost predicate AllJustified(adopted: seq<Adopted>, adoptions: seq<nat>, applies: seq<Request>, log: seq<Happening>) {
    && |adopted| == |adoptions|
    && forall k :: 0 <= k < |adopted| ==> adopted[k].request == adoptions[k] && Justified(adopted[k], applies, log)
  }

  /**
   Over any run of the window: Applies are adopted in order, each at most once and never after it was withdrawn, and at
   each adoption nothing had happened to the document since the Apply's guard was captured.
   */
  method RunWindow(controller: Controller, lane: Lane, document: Document, turns: seq<Turn>)
    returns (ghost adopted: seq<Adopted>)
    requires document.Valid() && controller.Valid(lane, document) && controller.adoptions == []
    modifies controller, lane, document
    ensures document.Valid() && controller.Valid(lane, document)
    ensures AllJustified(adopted, controller.adoptions, controller.applies, document.log)
    ensures forall i, j :: 0 <= i < j < |adopted| ==> adopted[i].request < adopted[j].request
    ensures forall i :: 0 <= i < |adopted| ==> adopted[i].request !in controller.withdrawn
  {
    adopted := [];
    for k := 0 to |turns|
      invariant document.Valid() && controller.Valid(lane, document)
      invariant AllJustified(adopted, controller.adoptions, controller.applies, document.log)
    {
      hide Tracked, Controller.Consistent, Justified, Document.Valid;
      ghost var log, applies, adoptions := document.log, controller.applies, controller.adoptions;
      TakeTurn(controller, lane, document, turns[k]);
      forall a | a in adopted && Justified(a, applies, log) ensures Justified(a, controller.applies, document.log) {
        StaysJustified(a, applies, controller.applies, log, document.log);
      }
      if controller.adoptions != adoptions { adopted := adopted + [Adopted(|controller.applies| - 1, |log|)]; }
    }
    hide Tracked, Tokens, Halted, LaneHolds, Provenance, Justified;
  }

  /** Undisturbed, an Apply of the present proposal is adopted by the polling that finds its preparation finished. */
  method ApplyIsAdopted(c: Controller, document: Document, lane: Lane, revision: nat, commands: seq<DA.EditCommand>,
                        schemas: DA.Schemas)
    requires document.Valid() && c.Valid(lane, document)
    requires !c.loading && c.preparing.None? && c.running.None? && !c.querying && lane.pending.None?
    requires c.form.captured ==> c.form.consent == Some(c.form.token)
    requires c.form.guard.Some? && WouldEdit(document, c.form.guard.value, commands, schemas, true)
    modifies c, lane, document
    ensures document.Valid() && c.Valid(lane, document)
    ensures c.applies == old(c.applies) + [Request(old(c.form).token, old(c.form).guard.value, revision,
                                                   old(c.form).captured)]
    ensures c.adoptions == old(c.adoptions) + [|c.applies| - 1]
    ensures document.rules.update(old(document.authority.contents), commands, schemas)
            == Some(document.authority.contents)
  {
    hide Slots, Tokens, Halted, LaneHolds, Provenance, Answers;
    var ok := c.Act(Apply(c.form.token, true), document, lane, Some(revision));
    assert ok;
    c.Tick(document, lane, Some(revision), false, None, false, None, false, Some(Some(Direct(commands, schemas))), true,
           true);
  }

  /** And with captured physics: prepared, handed to the lane, and adopted when the lane's effect is finished. */
  method HistoryIsAdopted(c: Controller, document: Document, lane: Lane, revision: nat, commands: seq<DA.EditCommand>,
                          schemas: DA.Schemas)
    requires document.Valid() && c.Valid(lane, document)
    requires !c.loading && c.preparing.None? && c.running.None? && !c.querying && lane.pending.None?
    requires c.form.consent == Some(c.form.token)
    requires c.form.guard.Some? && WouldEdit(document, c.form.guard.value, commands, schemas, true)
    modifies c, lane, document
    ensures document.Valid() && c.Valid(lane, document)
    ensures c.adoptions == old(c.adoptions) + [|c.applies| - 1] && |c.applies| == |old(c.applies)| + 1
    ensures lane.pending.None? && c.running.None?
    ensures document.rules.update(old(document.authority.contents), commands, schemas)
            == Some(document.authority.contents)
  {
    hide Slots, Tokens, Halted, LaneHolds, Provenance, Answers;
    var ok := c.Act(Apply(c.form.token, true), document, lane, Some(revision));
    assert ok;
    c.Tick(document, lane, Some(revision), false, None, false, None, false, Some(Some(Scientific)), true, true);
    assert c.form == old(c.form) && WouldEdit(document, lane.pending.value.guard, commands, schemas, true);
    hide WouldEdit, Controller.Adopts, Controller.Hands, Controller.Adoption, Controller.HandedOver, Untouched;
    c.Tick(document, lane, Some(revision), true, Some(Direct(commands, schemas)), false, None, false, None, true, true);
  }
}
