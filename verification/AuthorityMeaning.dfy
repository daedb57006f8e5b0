/**
 What the document authority decides and does (crates/kagami-session/src/authority.rs:213-345, :708-990), command by
 command, in terms of the document before and after.
 */
module AuthorityMeaning {
  import opened Aggregates
  import opened AuthorityLaws
  import opened DocumentAuthority

  // ---- What each command does ----

  /** At most so many of the newest. */
  ghost predicate Newest<T>(kept: seq<T>, all: seq<T>, most: nat) {
    |kept| == Min(|all|, most) && kept == all[|all| - |kept|..]
  }

  lemma LastIsNewest<T>(all: seq<T>, most: nat)
    ensures Newest(Last(all, most), all, most)
  {
    if |all| <= most { assert all[0..] == all; }
  }

  /** The edited contents are one step ahead in history, in the step of the open gesture if that is the last one. */
  ghost predicate Remembered(s: State, after: State, gesture: Option<nat>) {
    if gesture.Some? && s.undo != [] && s.undo[|s.undo| - 1].gesture == gesture
    then after.undo == s.undo && after.redo == s.redo
    else after.redo == [] && Newest(after.undo, s.undo + [Entry(s.contents, gesture)], s.depth)
  }

  /** Contents and history after the newest entry of one side has changed places with the contents. */
  ghost predicate Exchanged(s: State, after: State, taken: seq<Entry>, left: seq<Entry>, given: seq<Entry>,
                            banked: seq<Entry>) {
    && taken != [] && left == taken[..|taken| - 1] && after.contents == taken[|taken| - 1].contents
    && Newest(banked, given + [Entry(s.contents, taken[|taken| - 1].gesture)], s.depth)
  }

  ghost predicate SameHistory(s: State, after: State) {
    after.contents == s.contents && after.undo == s.undo && after.redo == s.redo
  }

  ghost predicate Replaced(after: State, contents: Contents, target: Option<Target>) {
    && after.contents == contents && after.undo == after.redo == [] && after.gesture.None?
    && after.target == target && after.clean == after.revision && after.acknowledged.None?
  }

  ghost predicate SameMarks(s: State, after: State) {
    after.target == s.target && after.clean == s.clean && after.acknowledged == s.acknowledged
  }

  /** The command's effect on contents and history, under the schemas in force. */
  ghost predicate Performed(s: State, after: State, e: Envelope, r: Rules) {
    match e.command
    case Edit(commands) =>
      r.update(s.contents, commands, s.schemas) == Some(after.contents) && Remembered(s, after, e.gesture)
    case Instantiate(spec) =>
      && s.catalog.Some? && r.materialise(s.contents, s.catalog.value, s.schemas, spec).Some?
      && r.update(s.contents, r.materialise(s.contents, s.catalog.value, s.schemas, spec).value, s.schemas)
         == Some(after.contents)
      && Remembered(s, after, e.gesture)
    case Undo => Exchanged(s, after, s.undo, after.undo, s.redo, after.redo)
    case Redo => Exchanged(s, after, s.redo, after.redo, s.undo, after.undo)
    case Begin => SameHistory(s, after) && after.gesture == Some(s.nextGesture)
    case End => SameHistory(s, after) && s.gesture.Some? && after.gesture.None?
    case New(_) => Replaced(after, Contents(0, false), None)
    case Open(contents, target, _) => Replaced(after, contents, target)
  }

  /** What it does besides. */
  ghost predicate Attended(s: State, after: State, e: Envelope) {
    && after.schemas == s.schemas && after.catalog == s.catalog && after.depth == s.depth
      && after.maxBatch == s.maxBatch
    && after.revision == s.revision + (if e.command.Begin? || e.command.End? then 0 else 1)
    && after.nextGesture == s.nextGesture + (if e.command.Begin? then 1 else 0)
    && (!e.command.New? && !e.command.Open? ==> SameMarks(s, after))
    && (!e.command.Begin? && !e.command.End? && !e.command.New? && !e.command.Open? ==> after.gesture == e.gesture)
  }

  /** What must hold for the command to be possible. */
  ghost predicate Performable(s: State, e: Envelope, r: Rules) {
    match e.command
    case Edit(commands) => 0 < |commands| <= s.maxBatch && r.update(s.contents, commands, s.schemas).Some?
    case Instantiate(spec) =>
      && s.catalog.Some? && r.materialise(s.contents, s.catalog.value, s.schemas, spec).Some?
      && var commands := r.materialise(s.contents, s.catalog.value, s.schemas, spec).value;
      0 < |commands| <= s.maxBatch && r.update(s.contents, commands, s.schemas).Some?
    case Undo => s.undo != [] && r.restorable(s.undo[|s.undo| - 1].contents, s.schemas)
    case Redo => s.redo != [] && r.restorable(s.redo[|s.redo| - 1].contents, s.schemas)
    case Begin => true
    case End => s.gesture.Some?
    case New(discard) => discard || s.revision == s.clean
    case Open(contents, _, discard) => (discard || s.revision == s.clean) && r.openable(contents)
  }

  lemma ApplyMeans(s: State, e: Envelope, r: Rules)
    requires e.command.End? || s.gesture == e.gesture
    ensures Apply(s, e, r).Done? <==> Performable(s, e, r)
    ensures Apply(s, e, r).Done? ==>
      var after := Apply(s, e, r).state; Performed(s, after, e, r) && Attended(s, after, e)
  {
    hide Newest, Last;
    match e.command
    case Edit(commands) => EditMeans(s, commands, e.gesture, r);
    case Instantiate(spec) =>
      if s.catalog.Some? && r.materialise(s.contents, s.catalog.value, s.schemas, spec).Some? {
        EditMeans(s, r.materialise(s.contents, s.catalog.value, s.schemas, spec).value, e.gesture, r);
      }
      hide ApplyEdit;
    case Undo => if s.undo != [] { LastIsNewest(s.redo + [Entry(s.contents, s.undo[|s.undo| - 1].gesture)], s.depth); }
    case Redo => if s.redo != [] { LastIsNewest(s.undo + [Entry(s.contents, s.redo[|s.redo| - 1].gesture)], s.depth); }
    case Begin =>
    case End =>
    case New(_) =>
    case Open(_, _, _) =>
  }

  lemma EditMeans(s: State, commands: seq<EditCommand>, gesture: Option<nat>, r: Rules)
    ensures ApplyEdit(s, commands, gesture, r).Done? <==>
      0 < |commands| <= s.maxBatch && r.update(s.contents, commands, s.schemas).Some?
    ensures ApplyEdit(s, commands, gesture, r).Done? ==>
      var after := ApplyEdit(s, commands, gesture, r).state;
      && r.update(s.contents, commands, s.schemas) == Some(after.contents) && Remembered(s, after, gesture)
      && after == s.(contents := after.contents, undo := after.undo, redo := after.redo, revision := s.revision + 1)
  {
    LastIsNewest(s.undo + [Entry(s.contents, gesture)], s.depth);
    hide Newest, Last;
  }

  // ---- Submissions ----

  /** Its revision guard holds, and a gesture it names is the open one. */
  ghost predicate Admissible(s: State, e: Envelope) {
    && (e.expected.Some? ==> e.expected.value == s.revision)
    && (e.gesture.Some? ==> s.gesture == e.gesture)
  }

  /** Contents that count towards the retained scientific state may come in. */
  ghost predicate Receives(c: SessionCommand) {
    c.Instantiate? || (c.Open? && c.contents.scientific) || (c.Edit? && exists x :: x in c.commands && x.scientific)
  }

  /** The document the command meets: a gesture left open that it does not name is over. */
  ghost function Met(s: State, e: Envelope): State {
    if e.gesture.None? && !e.command.End? then s.(gesture := None) else s
  }

  lemma SameForCommand(s: State, t: State, e: Envelope, r: Rules)
    requires t == s.(events := t.events, nextEvent := t.nextEvent)
    ensures Performable(s, e, r) <==> Performable(t, e, r)
    ensures forall after :: Performed(s, after, e, r) <==> Performed(t, after, e, r)
    ensures forall after :: Attended(s, after, e) <==> Attended(t, after, e)
  {
    hide Newest;
  }

  lemma CloseMeets(s: State, e: Envelope)
    ensures var t := ImplicitClose(s, e); t == Met(s, e).(events := t.events, nextEvent := t.nextEvent)
  {
  }

  /** An accepted submission that was not accepted before. */
  lemma InnerMeans(s: State, e: Envelope, r: Rules)
    requires Replay(s, e).None?
    ensures SubmitInner(s, e, r).1.Accepted? <==> Admissible(s, e) && Performable(Met(s, e), e, r)
    ensures SubmitInner(s, e, r).1.Accepted? ==>
      var after := SubmitInner(s, e, r).0; Performed(Met(s, e), after, e, r) && Attended(Met(s, e), after, e)
  {
    var closed := ImplicitClose(s, e);
    CloseMeets(s, e);
    if Admissible(s, e) { ApplyMeans(closed, e, r); }
    SameForCommand(Met(s, e), closed, e, r);
    if SubmitInner(s, e, r).1.Accepted? {
      InnerAcceptance(s, e, r);
      StateOnly(Apply(closed, e, r).state, SubmitInner(s, e, r).0, closed, e, r);
    }
    hide Apply, Performed, Attended, Performable, Recorded, Find, Met, ImplicitClose;
  }

  lemma StateOnly(t: State, u: State, s: State, e: Envelope, r: Rules)
    requires u == t.(events := u.events, nextEvent := u.nextEvent, accepted := u.accepted, retained := u.retained)
    ensures Performed(s, t, e, r) <==> Performed(s, u, e, r)
    ensures Attended(s, t, e) <==> Attended(s, u, e)
  {
    hide Newest;
  }

  lemma ReceivesIs(c: SessionCommand)
    ensures Staged(c) <==> Receives(c)
  {
    if c.Edit? && Staged(c) {
      var i :| 0 <= i < |c.commands| && c.commands[i].scientific;
      assert c.commands[i] in c.commands;
    }
  }

  /**
   A submission not accepted before is accepted exactly when it is admissible, its command possible and what it brings
   can be retained; and then its command was performed once, on the present document.
   */
  lemma SubmissionMeans(s: State, e: Envelope, r: Rules)
    requires Replay(s, e).None?
    ensures var (after, verdict) := Submit(s, e, r);
      && (verdict.Accepted? <==>
            && Admissible(s, e) && Performable(Met(s, e), e, r)
            && (Receives(e.command) ==> r.surplus(SubmitInner(s, e, r).0).Some?))
      && (verdict.Accepted? ==> Performed(Met(s, e), after, e, r) && Attended(Met(s, e), after, e))
  {
    InnerMeans(s, e, r);
    ReceivesIs(e.command);
    hide Staged, SubmitInner, Find, Receives, Met;
    var inner := SubmitInner(s, e, r).0;
    if r.surplus(inner).Some? {
      DropKeeps(inner, r.surplus(inner).value);
      StateOnly(inner, DropOldest(inner, r.surplus(inner).value), Met(s, e), e, r);
    }
    FittingBatch(Met(s, e), e, r);
    hide Performed, Attended, Performable, DropOldest;
  }

  lemma FittingBatch(s: State, e: Envelope, r: Rules)
    ensures Performable(s, e, r) ==> BatchFits(s, e.command)
  {
  }

  /** The same under supplied schemas, which are then in force. */
  lemma SchemaSubmissionMeans(s: State, e: Envelope, schemas: Schemas, r: Rules)
    requires Replay(s, e).None?
    ensures var (after, verdict) := SubmitWithSchemas(s, e, schemas, r);
      var met := Met(s, e).(schemas := schemas);
      && (verdict.Accepted? <==>
            && Admissible(s, e) && Performable(met, e, r)
            && r.surplus(SubmitInner(WithSchemas(s, e, schemas), e, r).0).Some?)
      && (verdict.Accepted? ==> Performed(met, after, e, r) && Attended(met, after, e))
  {
    var staged := WithSchemas(s, e, schemas);
    assert Replay(staged, e) == Replay(s, e);
    InnerMeans(staged, e, r);
    SameForCommand(Met(s, e).(schemas := schemas), Met(staged, e), e, r);
    hide SubmitInner, Find;
    var inner := SubmitInner(staged, e, r).0;
    if r.surplus(inner).Some? {
      DropKeeps(inner, r.surplus(inner).value);
      StateOnly(inner, DropOldest(inner, r.surplus(inner).value), Met(s, e).(schemas := schemas), e, r);
    }
    FittingBatch(Met(s, e).(schemas := schemas), e, r);
    hide Performed, Attended, Performable, DropOldest;
  }

  // ---- Refusals ----

  /** Why a command that is not possible is refused. */
  ghost function Obstacle(s: State, e: Envelope, r: Rules): Rejection {
    match e.command
    case Edit(commands) => if commands == [] then EmptyBatch else Invalid
    case Instantiate(spec) =>
      if s.catalog.None? then NoCatalog
      else
        var commands := r.materialise(s.contents, s.catalog.value, s.schemas, spec);
        if commands == Some([]) then EmptyBatch
        else if commands.Some? && |commands.value| > s.maxBatch then BatchTooLarge
        else Invalid
    case Undo => if s.undo == [] then NothingToUndo else Invalid
    case Redo => if s.redo == [] then NothingToRedo else Invalid
    case End => NoGestureOpen
    case Begin => Invalid
    case New(_) => UnsavedChanges
    case Open(_, _, discard) => if s.revision != s.clean && !discard then UnsavedChanges else Invalid
  }

  lemma ObstacleIs(s: State, e: Envelope, r: Rules)
    requires !Performable(s, e, r) && (e.command.Edit? ==> |e.command.commands| <= s.maxBatch)
    ensures Apply(s, e, r) == Failed(Obstacle(s, e, r))
  {
  }

  lemma SameObstacle(s: State, t: State, e: Envelope, r: Rules)
    requires t == s.(events := t.events, nextEvent := t.nextEvent)
    ensures Obstacle(s, e, r) == Obstacle(t, e, r)
  {
  }

  lemma InnerRefusal(s: State, e: Envelope, r: Rules)
    requires Replay(s, e).None? && (e.command.Edit? ==> |e.command.commands| <= s.maxBatch)
    ensures var verdict := SubmitInner(s, e, r).1;
      && (e.expected.Some? && e.expected.value != s.revision ==> verdict == Refused(RevisionConflict))
      && ((e.expected.Some? ==> e.expected.value == s.revision) && !Admissible(s, e) ==>
            verdict == Refused(GestureNotOpen))
      && (Admissible(s, e) && !Performable(Met(s, e), e, r) ==> verdict == Refused(Obstacle(Met(s, e), e, r)))
  {
    var closed := ImplicitClose(s, e);
    CloseMeets(s, e);
    SameForCommand(Met(s, e), closed, e, r);
    SameObstacle(Met(s, e), closed, e, r);
    if !Performable(closed, e, r) { ObstacleIs(closed, e, r); }
    hide Apply, Performed, Attended, Performable, Recorded, Find, Obstacle, Met, ImplicitClose;
  }

  /** A refusal names the first obstacle: size, revision, gesture, the command's own, or retention. */
  lemma RefusalMeans(s: State, e: Envelope, r: Rules)
    requires Replay(s, e).None? && Submit(s, e, r).1.Refused?
    ensures Submit(s, e, r).1.reason ==
      if e.command.Edit? && |e.command.commands| > s.maxBatch then BatchTooLarge
      else if e.expected.Some? && e.expected.value != s.revision then RevisionConflict
      else if !Admissible(s, e) then GestureNotOpen
      else if !Performable(Met(s, e), e, r) then Obstacle(Met(s, e), e, r)
      else Retention
  {
    SubmissionMeans(s, e, r);
    if BatchFits(s, e.command) {
      InnerRefusal(s, e, r);
      InnerMeans(s, e, r);
    }
    ReceivesIs(e.command);
    hide SubmitInner, Performed, Attended, Performable, Obstacle, Find, Staged, Receives, Met, DropOldest;
  }

  // ---- Receipts and events ----

  ghost function ChangeOf(s: State, e: Envelope): Change {
    match e.command
    case Edit(_) => Edited
    case Instantiate(_) => Edited
    case Undo => Undone
    case Redo => Redone
    case Begin => GestureOpened(s.nextGesture)
    case End => GestureClosed(if s.gesture.Some? then s.gesture.value else 0, false)
    case New(_) => Change.Replaced(false)
    case Open(_, _, _) => Change.Replaced(true)
  }

  /** The closing of a gesture the submission did not name, if one was open. */
  ghost function Closing(s: State, e: Envelope): seq<Event> {
    if s.gesture.Some? && e.gesture.None? && !e.command.End?
    then [Event(s.nextEvent + 1, s.revision, Some(e.id), e.actor, GestureClosed(s.gesture.value, true))] else []
  }

  /** The receipt tells what was done, and is the newest event's; nothing else is published. */
  ghost predicate Receipted(s: State, after: State, e: Envelope, a: Acceptance) {
    && a == Acceptance(e.id, after.revision, ChangeOf(s, e), after.nextEvent, false)
    && after.nextEvent == s.nextEvent + |Closing(s, e)| + 1
    && Newest(after.events, s.events + Closing(s, e) + [Event(a.event, a.revision, Some(e.id), e.actor, a.change)], 256)
  }

  lemma LastOfMore<T>(all: seq<T>, x: T, most: nat)
    requires most > 0
    ensures Newest(Last(Last(all, most) + [x], most), all + [x], most)
  {
    LastIsNewest(all, most);
    LastIsNewest(Last(all, most) + [x], most);
    var kept := Last(Last(all, most) + [x], most);
    assert kept == (all + [x])[|all| + 1 - |kept|..];
  }

  lemma Publishes(s: State, applied: State, e: Envelope, change: Change)
    requires applied.events == ImplicitClose(s, e).events && applied.nextEvent == ImplicitClose(s, e).nextEvent
    ensures var after := Recorded(applied, e, change);
      && after.nextEvent == s.nextEvent + |Closing(s, e)| + 1
      && Newest(after.events, s.events + Closing(s, e)
          + [Event(after.nextEvent, applied.revision, Some(e.id), e.actor, change)], 256)
  {
    var pushed := Push(applied, Some(e.id), e.actor, change);
    EvictKeeps(pushed.(accepted := applied.accepted + [Record(e, AcceptanceOf(applied, e, change))],
                       retained := applied.retained + Weight(e)));
    var event := Event(pushed.nextEvent, applied.revision, Some(e.id), e.actor, change);
    LastOfMore(s.events + Closing(s, e), event, 256);
    LastIsNewest(s.events + [event], 256);
    assert s.events + [] == s.events;
    hide Evict, Newest;
  }

  lemma ChangeIs(s: State, e: Envelope, r: Rules)
    requires Apply(s, e, r).Done?
    ensures Apply(s, e, r).change == ChangeOf(s, e)
    ensures Apply(s, e, r).state.events == s.events && Apply(s, e, r).state.nextEvent == s.nextEvent
  {
  }

  lemma SameChange(s: State, e: Envelope)
    requires e.gesture.Some? ==> s.gesture == e.gesture
    ensures ChangeOf(ImplicitClose(s, e), e) == ChangeOf(s, e)
  {
  }

  lemma InnerReceipt(s: State, e: Envelope, r: Rules)
    requires Replay(s, e).None? && SubmitInner(s, e, r).1.Accepted?
    ensures Receipted(s, SubmitInner(s, e, r).0, e, SubmitInner(s, e, r).1.acceptance)
  {
    var closed := ImplicitClose(s, e);
    var applied := Apply(closed, e, r);
    ChangeIs(closed, e, r);
    SameChange(s, e);
    Publishes(s, applied.state, e, applied.change);
    InnerAcceptance(s, e, r);
    hide Apply, Recorded, Find, Newest, ChangeOf, Closing, ImplicitClose, AppliedFrom;
    assert AcceptanceOf(applied.state, e, applied.change).event == applied.state.nextEvent + 1;
    RecordedNext(applied.state, e, applied.change);
  }

  lemma RecordedNext(t: State, e: Envelope, change: Change)
    ensures Recorded(t, e, change).nextEvent == t.nextEvent + 1 && Recorded(t, e, change).revision == t.revision
  {
    var pushed := Push(t, Some(e.id), e.actor, change);
    EvictKeeps(pushed.(accepted := t.accepted + [Record(e, AcceptanceOf(t, e, change))],
                       retained := t.retained + Weight(e)));
    hide Evict;
  }

  lemma ReceiptMeans(s: State, e: Envelope, r: Rules)
    requires Replay(s, e).None? && Submit(s, e, r).1.Accepted?
    ensures Receipted(s, Submit(s, e, r).0, e, Submit(s, e, r).1.acceptance)
  {
    hide SubmitInner, Find, Staged, Newest, ChangeOf, Closing;
    if SubmitInner(s, e, r).1.Accepted? { InnerReceipt(s, e, r); }
    var inner := SubmitInner(s, e, r).0;
    if Staged(e.command) && r.surplus(inner).Some? { DropKeeps(inner, r.surplus(inner).value); }
  }

  /** Adopting schemas changes no document and is published once, as nobody's command. */
  lemma AdoptionMeans(s: State, schemas: Schemas, actor: nat)
    ensures var after := AdoptSchemas(s, schemas, actor);
      && after == s.(schemas := schemas, events := after.events, nextEvent := s.nextEvent + 1)
      && Newest(after.events, s.events + [Event(s.nextEvent + 1, s.revision, None, actor, CapabilityChanged)], 256)
  {
    LastIsNewest(s.events + [Event(s.nextEvent + 1, s.revision, None, actor, CapabilityChanged)], 256);
    hide Newest;
  }

  // ---- The replay window ----

  /** A receipt weighs as many commands as it holds, and one if it holds none. */
  lemma WeightMeans(e: Envelope)
    ensures Weight(e) == (if e.command.Edit? && |e.command.commands| > 1 then |e.command.commands| else 1)
  {
  }

  /** No more is forgotten than the two budgets ask for: 256 receipts that weigh 4096 commands. */
  lemma {:induction false} EvictsNoMore(s: State)
    requires s.retained == TotalWeight(s.accepted)
    ensures var kept := Evict(s).accepted;
      && |kept| <= |s.accepted| && kept == s.accepted[|s.accepted| - |kept|..]
      && |kept| <= 256 && TotalWeight(kept) <= 4096
      && (|kept| < |s.accepted| ==>
            var more := s.accepted[|s.accepted| - |kept| - 1..]; |more| > 256 || TotalWeight(more) > 4096)
    decreases |s.accepted|
  {
    EvictKeeps(s);
    if s.accepted == [] || (|s.accepted| <= MAX_COMMAND_HISTORY && s.retained <= MAX_REPLAY_COMMANDS) {
      assert Evict(s) == s;
      assert s.accepted[0..] == s.accepted;
    } else {
      var rest := s.(accepted := s.accepted[1..], retained := Less(s.retained, Weight(s.accepted[0].envelope)));
      OneLighter(s);
      EvictsNoMore(rest);
      var kept := Evict(s).accepted;
      assert kept == Evict(rest).accepted;
      if |kept| < |rest.accepted| {
        assert rest.accepted[|rest.accepted| - |kept| - 1..] == s.accepted[|s.accepted| - |kept| - 1..];
      } else {
        assert s.accepted[0..] == s.accepted;
      }
    }
  }
}
