/** What the document authority promises its callers, for every state and submission (see DocumentAuthority). */
module AuthorityLaws {
  import opened Aggregates
  import opened DocumentAuthority

  // ---- What a refusal leaves behind ----

  /** Everything but the event log and the open gesture. */
  ghost predicate SameDocument(s: State, t: State) {
    t == s.(events := t.events, nextEvent := t.nextEvent, gesture := t.gesture)
  }

  /** Checked before anything is decided, and before an unnamed gesture could be closed. */
  predicate ReachesDecision(s: State, e: Envelope) {
    Replay(s, e).None? && BatchFits(s, e.command) && GuardHolds(s, e) && GestureNamed(s, e)
  }

  /**
   A refusal never touches the experiment, its revision, history, receipts, schemas or saved marks.
   It also leaves the event log alone, as the authority's documentation says, except in exactly
   one case: an unstaged command that was decided while a gesture it did not name was open.
   */
  lemma RefusalChangesNothingIff(s: State, e: Envelope, r: Rules)
    requires Submit(s, e, r).1.Refused?
    ensures SameDocument(s, Submit(s, e, r).0)
    ensures Submit(s, e, r).0 == s <==> !(ReachesDecision(s, e) && !Staged(e.command) && ClosesGesture(s, e))
    ensures Submit(s, e, r).0 != s ==> Submit(s, e, r).0.gesture.None? && Submit(s, e, r).0.nextEvent == s.nextEvent + 1
  {
    hide Apply, Recorded, Staged, Find;
  }

  /**
   The case does occur in a run: a fresh session opens a drag, and an undo with nothing to undo is refused and ends it.
   */
  lemma RefusedUndoEndsADrag(r: Rules) returns (begun: State, refused: State)
    ensures var opening := Submit(NewState(0, 1, 1), Envelope(0, 0, None, None, Begin), r);
            opening.1.Accepted? && begun == opening.0
    ensures Submit(begun, Envelope(1, 0, None, None, Undo), r) == (refused, Refused(NothingToUndo))
    ensures begun.gesture.Some? && refused.gesture.None? && |refused.events| == |begun.events| + 1
  {
    var opening := Envelope(0, 0, None, None, Begin);
    begun := Submit(NewState(0, 1, 1), opening, r).0;
    var dragging := Apply(NewState(0, 1, 1), opening, r).state;
    assert begun.accepted == [Record(opening, AcceptanceOf(dragging, opening, GestureOpened(0)))];
    refused := Submit(begun, Envelope(1, 0, None, None, Undo), r).0;
  }

  /** Adopting verified schemas with an edit is all or nothing: refused, it leaves the whole state as it was. */
  lemma RefusedSchemaEditIsAtomic(s: State, e: Envelope, schemas: Schemas, r: Rules)
    requires SubmitWithSchemas(s, e, schemas, r).1.Refused?
    ensures SubmitWithSchemas(s, e, schemas, r).0 == s
  {
  }

  // ---- What an acceptance means ----

  predicate MovesRevision(c: SessionCommand) { !c.Begin? && !c.End? }

  lemma ApplyRevision(s: State, e: Envelope, r: Rules)
    requires Apply(s, e, r).Done?
    ensures var t := Apply(s, e, r).state;
            t.revision == s.revision + (if MovesRevision(e.command) then 1 else 0) && t.accepted == s.accepted
              && t.retained == s.retained
    ensures var t := Apply(s, e, r).state;
      t.schemas == s.schemas && t.depth == s.depth && t.nextEvent == s.nextEvent && t.events == s.events
  {
  }

  lemma {:induction false} EvictKeeps(s: State)
    ensures var t := Evict(s); t == s.(accepted := t.accepted, retained := t.retained)
    ensures var t := Evict(s); |t.accepted| <= |s.accepted| && t.accepted == s.accepted[|s.accepted| - |t.accepted|..]
    ensures s.retained == TotalWeight(s.accepted) ==> Evict(s).retained == TotalWeight(Evict(s).accepted)
    ensures Evict(s).accepted == []
      || (|Evict(s).accepted| <= MAX_COMMAND_HISTORY && Evict(s).retained <= MAX_REPLAY_COMMANDS)
    decreases |s.accepted|
  {
    if s.accepted == [] || (|s.accepted| <= MAX_COMMAND_HISTORY && s.retained <= MAX_REPLAY_COMMANDS) {
    } else {
      EvictKeeps(s.(accepted := s.accepted[1..], retained := Less(s.retained, Weight(s.accepted[0].envelope))));
    }
  }

  lemma OneLighter(s: State)
    requires s.accepted != []
    ensures s.retained == TotalWeight(s.accepted) ==>
      Less(s.retained, Weight(s.accepted[0].envelope)) == TotalWeight(s.accepted[1..])
  {
  }

  lemma {:induction false} DropKeeps(s: State, k: nat)
    ensures var t := DropOldest(s, k); t == s.(accepted := t.accepted, retained := t.retained)
    ensures var t := DropOldest(s, k);
      |t.accepted| <= |s.accepted| && t.accepted == s.accepted[|s.accepted| - |t.accepted|..]
    ensures s.accepted != [] ==> DropOldest(s, k).accepted != []
    ensures s.retained == TotalWeight(s.accepted) ==>
      DropOldest(s, k).retained == TotalWeight(DropOldest(s, k).accepted)
    decreases k
  {
    hide TotalWeight, Weight, Less;
    if k == 0 || |s.accepted| <= 1 {
    } else {
      OneLighter(s);
      DropKeeps(s.(accepted := s.accepted[1..], retained := Less(s.retained, Weight(s.accepted[0].envelope))), k - 1);
    }
  }

  /** A first acceptance applies its command to the state with the unnamed gesture closed. */
  ghost predicate AppliedFrom(s: State, t: State, e: Envelope, r: Rules) {
    var applied := Apply(ImplicitClose(s, e), e, r);
    && applied.Done?
    && t == applied.state.(events := t.events, nextEvent := t.nextEvent, accepted := t.accepted, retained := t.retained)
  }

  lemma InnerAcceptance(s: State, e: Envelope, r: Rules)
    requires SubmitInner(s, e, r).1.Accepted? && Replay(s, e).None?
    ensures GuardHolds(s, e) && GestureNamed(s, e) && AppliedFrom(s, SubmitInner(s, e, r).0, e, r)
    ensures !SubmitInner(s, e, r).1.acceptance.replayed && SubmitInner(s, e, r).1.acceptance.id == e.id
    ensures SubmitInner(s, e, r).1.acceptance.revision == SubmitInner(s, e, r).0.revision
  {
    hide Apply, Find;
    var applied := Apply(ImplicitClose(s, e), e, r);
    var pushed := Push(applied.state, Some(e.id), e.actor, applied.change);
    EvictKeeps(pushed.(accepted := applied.state.accepted + [Record(e, AcceptanceOf(applied.state, e, applied.change))],
                       retained := applied.state.retained + Weight(e)));
  }

  /** Accepted for the first time: the guard held, and the command took effect on exactly the current state. */
  lemma AcceptanceAppliesOnce(s: State, e: Envelope, r: Rules)
    requires Submit(s, e, r).1.Accepted? && Replay(s, e).None?
    ensures GuardHolds(s, e) && AppliedFrom(s, Submit(s, e, r).0, e, r)
    ensures Submit(s, e, r).0.revision == s.revision + (if MovesRevision(e.command) then 1 else 0)
    ensures Submit(s, e, r).0.schemas == s.schemas
    ensures Submit(s, e, r).1.acceptance.revision == Submit(s, e, r).0.revision
  {
    hide Apply, SubmitInner, Find, Staged;
    InnerAcceptance(s, e, r);
    ApplyRevision(ImplicitClose(s, e), e, r);
    if Staged(e.command) && r.surplus(SubmitInner(s, e, r).0).Some? {
      DropKeeps(SubmitInner(s, e, r).0, r.surplus(SubmitInner(s, e, r).0).value);
    }
  }

  /** The state a schema-carrying submission is decided on: the supplied schemas adopted, if they differ. */
  function WithSchemas(s: State, e: Envelope, schemas: Schemas): State {
    if s.schemas != schemas then AdoptSchemas(s, schemas, e.actor) else s
  }

  /** The same with schemas: the command took effect on exactly the current state with the supplied schemas adopted. */
  lemma SchemaAcceptanceAppliesOnce(s: State, e: Envelope, schemas: Schemas, r: Rules)
    requires SubmitWithSchemas(s, e, schemas, r).1.Accepted? && Replay(s, e).None?
    ensures GuardHolds(s, e) && AppliedFrom(WithSchemas(s, e, schemas), SubmitWithSchemas(s, e, schemas, r).0, e, r)
    ensures SubmitWithSchemas(s, e, schemas, r).0.revision == s.revision + (if MovesRevision(e.command) then 1 else 0)
    ensures SubmitWithSchemas(s, e, schemas, r).0.schemas == schemas
  {
    hide Apply, SubmitInner, Find;
    var staged := WithSchemas(s, e, schemas);
    assert Replay(staged, e) == Replay(s, e);
    InnerAcceptance(staged, e, r);
    ApplyRevision(ImplicitClose(staged, e), e, r);
    if r.surplus(SubmitInner(staged, e, r).0).Some? {
      DropKeeps(SubmitInner(staged, e, r).0, r.surplus(SubmitInner(staged, e, r).0).value);
    }
  }

  // ---- Replay ----

  lemma {:induction false} WeightSplit(a: seq<Record>, b: seq<Record>)
    ensures TotalWeight(a + b) == TotalWeight(a) + TotalWeight(b)
  {
    if a == [] {
      assert a + b == b;
    } else {
      assert (a + b)[1..] == a[1..] + b;
      WeightSplit(a[1..], b);
    }
  }

  /** The newest record survives eviction exactly when its own weight fits the budget. */
  lemma {:induction false} NewestSurvivesIff(s: State)
    requires s.accepted != [] && s.retained == TotalWeight(s.accepted)
    ensures Evict(s).accepted != [] <==> Weight(s.accepted[|s.accepted| - 1].envelope) <= MAX_REPLAY_COMMANDS
    decreases |s.accepted|
  {
    var rest := s.(accepted := s.accepted[1..], retained := Less(s.retained, Weight(s.accepted[0].envelope)));
    if |s.accepted| == 1 {
      assert s.accepted[1..] == [];
      assert TotalWeight(s.accepted) == Weight(s.accepted[0].envelope);
    } else if |s.accepted| > MAX_COMMAND_HISTORY || s.retained > MAX_REPLAY_COMMANDS {
      NewestSurvivesIff(rest);
    } else {
      var n := |s.accepted|;
      assert s.accepted == s.accepted[..n - 1] + [s.accepted[n - 1]];
      WeightSplit(s.accepted[..n - 1], [s.accepted[n - 1]]);
      assert TotalWeight([s.accepted[n - 1]]) == Weight(s.accepted[n - 1].envelope);
    }
  }

  /** Identities of retained records are distinct. */
  ghost predicate DistinctIds(accepted: seq<Record>) {
    forall i, j :: 0 <= i < j < |accepted| ==> accepted[i].envelope.id != accepted[j].envelope.id
  }

  lemma DistinctSuffix(accepted: seq<Record>, k: nat)
    requires DistinctIds(accepted) && k <= |accepted|
    ensures DistinctIds(accepted[k..])
  {
  }

  lemma AnotherDistinct(accepted: seq<Record>, record: Record)
    requires DistinctIds(accepted) && Find(accepted, record.envelope.id) == |accepted|
    ensures DistinctIds(accepted + [record])
  {
    FindNone(accepted, record.envelope.id);
  }

  lemma FindNone(accepted: seq<Record>, id: nat)
    requires Find(accepted, id) == |accepted|
    ensures forall i :: 0 <= i < |accepted| ==> accepted[i].envelope.id != id
  {
  }

  /** What a first acceptance leaves in the replay window, if anything: a suffix ending in its own record. */
  lemma RecordKept(t: State, e: Envelope, change: Change)
    requires t.retained == TotalWeight(t.accepted)
    requires Find(t.accepted, e.id) == |t.accepted|
    ensures var after := Recorded(t, e, change);
            && (after.accepted != [] <==> Weight(e) <= MAX_REPLAY_COMMANDS)
            && (after.accepted != [] ==> after.accepted[|after.accepted| - 1] == Record(e, AcceptanceOf(t, e, change)))
            && (forall i :: 0 <= i < |after.accepted| - 1 ==> after.accepted[i].envelope.id != e.id)
            && after.retained == TotalWeight(after.accepted)
  {
    FindNone(t.accepted, e.id);
    var record := Record(e, AcceptanceOf(t, e, change));
    var pushed := Push(t, Some(e.id), e.actor, change);
    var longer := pushed.(accepted := t.accepted + [record], retained := t.retained + Weight(e));
    WeightSplit(t.accepted, [record]);
    assert TotalWeight([record]) == Weight(e);
    NewestSurvivesIff(longer);
    EvictKeeps(longer);
    hide Evict;
  }

  /** The window ends in this submission's own record, and no other record bears its identity. */
  ghost predicate EndsIn(accepted: seq<Record>, e: Envelope, acceptance: Acceptance) {
    && accepted != [] && accepted[|accepted| - 1] == Record(e, acceptance)
    && forall i :: 0 <= i < |accepted| - 1 ==> accepted[i].envelope.id != e.id
  }

  lemma EndingReplays(t: State, e: Envelope, acceptance: Acceptance)
    ensures EndsIn(t.accepted, e, acceptance) ==> Replay(t, e) == Some(Accepted(acceptance.(replayed := true)))
    ensures t.accepted == [] ==> Replay(t, e).None?
  {
  }

  lemma SuffixEndsIn(accepted: seq<Record>, k: nat, e: Envelope, acceptance: Acceptance)
    requires EndsIn(accepted, e, acceptance) && 0 < k <= |accepted|
    ensures EndsIn(accepted[|accepted| - k..], e, acceptance)
  {
  }

  lemma InnerWindow(s: State, e: Envelope, r: Rules)
    requires SubmitInner(s, e, r).1.Accepted? && Replay(s, e).None? && s.retained == TotalWeight(s.accepted)
    ensures var (t, verdict) := SubmitInner(s, e, r);
            && (t.accepted != [] <==> Weight(e) <= MAX_REPLAY_COMMANDS)
            && (t.accepted != [] ==> EndsIn(t.accepted, e, verdict.acceptance))
  {
    hide Apply, Recorded, Find, TotalWeight, Weight;
    var closed := ImplicitClose(s, e);
    var applied := Apply(closed, e, r);
    ApplyRevision(closed, e, r);
    RecordKept(applied.state, e, applied.change);
  }

  lemma StagedWindow(s: State, e: Envelope, r: Rules)
    requires Submit(s, e, r).1.Accepted? && Replay(s, e).None?
    ensures var (t, verdict) := Submit(s, e, r);
            var (inner, first) := SubmitInner(s, e, r);
            && verdict == first && first.Accepted?
            && (t.accepted == [] <==> inner.accepted == [])
            && |t.accepted| <= |inner.accepted| && t.accepted == inner.accepted[|inner.accepted| - |t.accepted|..]
  {
    hide SubmitInner, Staged, Find;
    if SubmitInner(s, e, r).1.Accepted? { InnerAcceptance(s, e, r); }
    var inner := SubmitInner(s, e, r).0;
    if Staged(e.command) && r.surplus(inner).Some? { DropKeeps(inner, r.surplus(inner).value); }
  }

  /**
   Sending an accepted submission again returns its recorded outcome and changes nothing, exactly
   when its batch is within the replay budget; a larger batch is forgotten as soon as it is accepted.
   */
  lemma ResubmissionReplaysIff(s: State, e: Envelope, r: Rules)
    requires Submit(s, e, r).1.Accepted? && Replay(s, e).None?
    requires s.retained == TotalWeight(s.accepted)
    ensures var (t, verdict) := Submit(s, e, r);
            && (Replay(t, e).Some? <==> Weight(e) <= MAX_REPLAY_COMMANDS)
            && (Weight(e) <= MAX_REPLAY_COMMANDS ==>
                  Submit(t, e, r) == (t, Accepted(verdict.acceptance.(replayed := true))))
  {
    StagedWindow(s, e, r);
    InnerWindow(s, e, r);
    var (t, verdict) := Submit(s, e, r);
    var inner := SubmitInner(s, e, r).0;
    if t.accepted != [] { SuffixEndsIn(inner.accepted, |t.accepted|, e, verdict.acceptance); }
    EndingReplays(t, e, verdict.acceptance);
    hide SubmitInner, Replay, EndsIn, Weight, TotalWeight, Admit;
  }

  // ---- Undo and redo ----

  /**
   Undo after an edit outside any gesture gives back the contents it replaced, and redo the edited ones, as later
   revisions.
   */
  lemma UndoRestoresAndRedoReapplies(s: State, commands: seq<EditCommand>, r: Rules)
    requires s.depth > 0 && |s.undo| <= s.depth
    requires ApplyEdit(s, commands, None, r).Done?
    requires r.restorable(s.contents, s.schemas)
    ensures var edited := ApplyEdit(s, commands, None, r).state;
            ApplyUndo(edited, r).Done?
            && var undone := ApplyUndo(edited, r).state;
            && undone.contents == s.contents && undone.revision == s.revision + 2
            && (|s.undo| < s.depth ==> undone.undo == s.undo)
            && (r.restorable(edited.contents, s.schemas) ==>
                  ApplyRedo(undone, r).Done?
                  && var redone := ApplyRedo(undone, r).state;
                  redone.contents == edited.contents && redone.revision == s.revision + 3 && redone.undo == edited.undo
                    && redone.redo == [])
  {
    var edited := ApplyEdit(s, commands, None, r).state;
    assert edited.undo[|edited.undo| - 1] == Entry(s.contents, None);
    var undone := ApplyUndo(edited, r).state;
    assert undone.redo == [Entry(edited.contents, None)];
    assert edited.undo[..|edited.undo| - 1] + [Entry(s.contents, None)] == edited.undo;
    assert |s.undo| < s.depth ==> (s.undo + [Entry(s.contents, None)])[..|s.undo|] == s.undo;
  }

  /** All the commits of one gesture become one undo entry: undoing gives back what the gesture began with. */
  lemma {:induction false} GestureUndoesAsOne(s: State, batches: seq<seq<EditCommand>>, gesture: nat, r: Rules,
                                              t: State)
    requires batches != [] && s.depth > 0
    requires s.undo == [] || s.undo[|s.undo| - 1].gesture != Some(gesture)
    requires Commits(s, batches, gesture, r, t)
    ensures t.undo == Last(s.undo + [Entry(s.contents, Some(gesture))], s.depth)
    ensures t.revision == s.revision + |batches| && t.depth == s.depth
    ensures r.restorable(s.contents, t.schemas) ==>
      ApplyUndo(t, r).Done? && ApplyUndo(t, r).state.contents == s.contents
    decreases |batches|
  {
    var n := |batches|;
    var u := if n == 1 then s else CommitsState(s, batches[..n - 1], gesture, r);
    if n > 1 {
      GestureUndoesAsOne(s, batches[..n - 1], gesture, r, u);
      assert u.undo[|u.undo| - 1].gesture == Some(gesture);
    } else {
      assert batches[..0] == [];
    }
  }

  /** The state after committing every batch inside one gesture. */
  ghost function CommitsState(s: State, batches: seq<seq<EditCommand>>, gesture: nat, r: Rules): State {
    if batches == [] then s
    else
      var applied := ApplyEdit(CommitsState(s, batches[..|batches| - 1], gesture, r), batches[|batches| - 1],
                               Some(gesture), r);
      if applied.Done? then applied.state else CommitsState(s, batches[..|batches| - 1], gesture, r)
  }

  ghost predicate Commits(s: State, batches: seq<seq<EditCommand>>, gesture: nat, r: Rules, t: State) {
    && t == CommitsState(s, batches, gesture, r)
    && (batches != [] ==>
          && Commits(s, batches[..|batches| - 1], gesture, r, CommitsState(s, batches[..|batches| - 1], gesture, r))
          && ApplyEdit(CommitsState(s, batches[..|batches| - 1], gesture, r), batches[|batches| - 1], Some(gesture),
                       r).Done?)
  }

  // ---- What every operation keeps ----

  ghost predicate Numbered(events: seq<Event>, next: nat) {
    && (forall i :: 0 <= i < |events| ==> events[i].seqNo <= next)
    && (forall i, j :: 0 <= i < j < |events| ==> events[i].seqNo < events[j].seqNo)
  }

  ghost predicate IdsBelow(accepted: seq<Record>, bound: nat) {
    forall i :: 0 <= i < |accepted| ==> accepted[i].envelope.id < bound
  }

  /**
   Bounded windows, an honest running total, distinct receipts, ordered events, and saved marks that never lie ahead.
   */
  ghost predicate Sound(s: State) {
    && s.depth > 0 && |s.undo| <= s.depth && |s.redo| <= s.depth
    && |s.accepted| <= MAX_COMMAND_HISTORY && s.retained == TotalWeight(s.accepted) <= MAX_REPLAY_COMMANDS
    && DistinctIds(s.accepted)
    && |s.events| <= MAX_EVENT_HISTORY && Numbered(s.events, s.nextEvent)
    && s.clean <= s.revision && (s.acknowledged.Some? ==> s.acknowledged.value <= s.revision)
    && (s.gesture.Some? ==> s.gesture.value < s.nextGesture)
  }

  lemma PushKeeps(s: State, cause: Option<nat>, actor: nat, change: Change)
    requires Sound(s)
    ensures Sound(Push(s, cause, actor, change))
  {
    hide TotalWeight, DistinctIds;
    var grown := s.events + [Event(s.nextEvent + 1, s.revision, cause, actor, change)];
    assert Numbered(grown, s.nextEvent + 1);
    LastNumbered(grown, s.nextEvent + 1);
  }

  lemma LastNumbered(events: seq<Event>, next: nat)
    requires Numbered(events, next)
    ensures Numbered(Last(events, MAX_EVENT_HISTORY), next) && |Last(events, MAX_EVENT_HISTORY)| <= MAX_EVENT_HISTORY
  {
  }

  lemma EditKeeps(s: State, commands: seq<EditCommand>, gesture: Option<nat>, r: Rules)
    requires Sound(s) && ApplyEdit(s, commands, gesture, r).Done?
    ensures Sound(ApplyEdit(s, commands, gesture, r).state)
  {
    hide Numbered, TotalWeight, DistinctIds;
  }

  lemma HistoryKeeps(s: State, r: Rules)
    requires Sound(s)
    ensures ApplyUndo(s, r).Done? ==> Sound(ApplyUndo(s, r).state)
    ensures ApplyRedo(s, r).Done? ==> Sound(ApplyRedo(s, r).state)
  {
    hide Numbered, TotalWeight, DistinctIds;
  }

  lemma ApplyKeeps(s: State, e: Envelope, r: Rules)
    requires Sound(s) && Apply(s, e, r).Done?
    ensures Sound(Apply(s, e, r).state)
  {
    hide Numbered, TotalWeight, DistinctIds, ApplyEdit, ApplyUndo, ApplyRedo;
    match e.command
    case Edit(commands) => EditKeeps(s, commands, e.gesture, r);
    case Undo => HistoryKeeps(s, r);
    case Redo => HistoryKeeps(s, r);
    case Instantiate(spec) =>
      EditKeeps(s, r.materialise(s.contents, s.catalog.value, s.schemas, spec).value, e.gesture, r);
    case Begin =>
    case End =>
    case New(_) =>
    case Open(_, _, _) =>
  }

  lemma RecordedKeeps(t: State, e: Envelope, change: Change)
    requires Sound(t) && Find(t.accepted, e.id) == |t.accepted|
    ensures Sound(Recorded(t, e, change))
  {
    hide Numbered, Push, DistinctIds, Find;
    PushKeeps(t, Some(e.id), e.actor, change);
    var pushed := Push(t, Some(e.id), e.actor, change);
    var record := Record(e, AcceptanceOf(t, e, change));
    var longer := pushed.(accepted := t.accepted + [record], retained := t.retained + Weight(e));
    AnotherDistinct(t.accepted, record);
    WeightSplit(t.accepted, [record]);
    assert TotalWeight([record]) == Weight(e);
    EvictKeeps(longer);
    DistinctSuffix(longer.accepted, |longer.accepted| - |Evict(longer).accepted|);
    hide Evict;
    assert TotalWeight([]) == 0;
  }

  lemma InnerKeeps(s: State, e: Envelope, r: Rules)
    requires Sound(s)
    ensures Sound(SubmitInner(s, e, r).0)
  {
    hide Apply, Recorded, Sound, Find;
    var closed := ImplicitClose(s, e);
    if ClosesGesture(s, e) {
      assert Sound(s.(gesture := None)) by { GestureDropped(s); }
      PushKeeps(s.(gesture := None), Some(e.id), e.actor, GestureClosed(s.gesture.value, true));
    }
    if Replay(s, e).None? && Apply(closed, e, r).Done? {
      ApplyKeeps(closed, e, r);
      ApplyRevision(closed, e, r);
      RecordedKeeps(Apply(closed, e, r).state, e, Apply(closed, e, r).change);
    }
  }

  lemma GestureDropped(s: State)
    requires Sound(s)
    ensures Sound(s.(gesture := None))
  {
  }

  lemma AdmitKeeps(s: State, next: State, verdict: Verdict, r: Rules)
    requires Sound(s) && Sound(next)
    ensures Sound(Admit(s, next, verdict, r).0)
  {
    if r.surplus(next).Some? {
      DropKeeps(next, r.surplus(next).value);
      SuffixWeight(next.accepted, |DropOldest(next, r.surplus(next).value).accepted|);
      DistinctSuffix(next.accepted, |next.accepted| - |DropOldest(next, r.surplus(next).value).accepted|);
    }
    hide DropOldest, Numbered, DistinctIds;
  }

  lemma SuffixWeight(accepted: seq<Record>, k: nat)
    requires k <= |accepted|
    ensures TotalWeight(accepted[|accepted| - k..]) <= TotalWeight(accepted)
  {
    var n := |accepted| - k;
    assert accepted == accepted[..n] + accepted[n..];
    WeightSplit(accepted[..n], accepted[n..]);
  }

  /** Every operation keeps the bounds, the order of events and the saved marks, from a new session on. */
  lemma OperationsKeepSound(s: State, e: Envelope, schemas: Schemas, actor: nat, revision: nat, target: Target,
                            r: Rules)
    requires Sound(s)
    ensures Sound(Submit(s, e, r).0) && Sound(SubmitWithSchemas(s, e, schemas, r).0)
    ensures Sound(AdoptSchemas(s, schemas, actor))
    ensures revision <= s.revision ==> Sound(AcknowledgeSave(s, revision, target).0)
  {
    hide DistinctIds, Numbered, TotalWeight;
    var relabelled := s.(schemas := schemas);
    assert Sound(relabelled);
    PushKeeps(relabelled, None, actor, CapabilityChanged);
    PushKeeps(relabelled, None, e.actor, CapabilityChanged);
    var staged := WithSchemas(s, e, schemas);
    InnerKeeps(s, e, r);
    InnerKeeps(staged, e, r);
    AdmitKeeps(s, SubmitInner(s, e, r).0, SubmitInner(s, e, r).1, r);
    AdmitKeeps(s, SubmitInner(staged, e, r).0, SubmitInner(staged, e, r).1, r);
    hide Push, SubmitInner, Admit, Find, Staged;
  }

  /**
   With distinct receipts the window answers exactly: each retained submission by its own receipt, its identity reused
   by a refusal.
   */
  lemma ReplayIsExact(s: State, e: Envelope, i: nat)
    requires Sound(s) && i < |s.accepted| && s.accepted[i].envelope.id == e.id
    ensures Replay(s, e) ==
            Some(if s.accepted[i].envelope == e then Accepted(s.accepted[i].acceptance.(replayed := true))
                   else Refused(IdentityConflict))
  {
    assert DistinctIds(s.accepted);
    hide Sound;
  }
}
