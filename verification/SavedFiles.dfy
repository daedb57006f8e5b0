/**
 Which file a session names, and when it is clean (crates/kagami-session/src/authority.rs:613-669, :880-908). Writes
 complete in the background, so their acknowledgements may come in any order and between any other submissions, a
 replacement of the whole document included.
 */
module SavedFiles {
  import opened Aggregates
  import opened AuthorityLaws
  import opened DocumentAuthority

  datatype Action =
    | Submitted(e: Envelope) | SubmittedWith(e: Envelope, schemas: Schemas) | Adopted(schemas: Schemas, actor: nat)
    | Saved(revision: nat, target: Target)

  function After(s: State, a: Action, r: Rules): State {
    match a
    case Submitted(e) => Submit(s, e, r).0
    case SubmittedWith(e, schemas) => SubmitWithSchemas(s, e, schemas, r).0
    case Adopted(schemas, actor) => AdoptSchemas(s, schemas, actor)
    case Saved(revision, target) => AcknowledgeSave(s, revision, target).0
  }

  /** Only a revision the session has reached can have been captured and written. */
  predicate Possible(s: State, a: Action) { a.Saved? ==> a.revision <= s.revision }

  predicate ReplacesDocument(c: SessionCommand) { c.New? || c.Open? }

  /** The action put another document in place of the present one. */
  predicate Replaces(s: State, a: Action, r: Rules) {
    match a
    case Submitted(e) => ReplacesDocument(e.command) && Replay(s, e).None? && Submit(s, e, r).1.Accepted?
    case SubmittedWith(e, schemas) =>
      ReplacesDocument(e.command) && Replay(s, e).None? && SubmitWithSchemas(s, e, schemas, r).1.Accepted?
    case _ => false
  }

  /** The present document: its first revision, the file it was opened from, and the writes acknowledged since. */
  datatype Book = Book(born: nat, home: Option<Target>, saves: seq<(nat, Target)>)

  function HomeOf(c: SessionCommand): Option<Target> { if c.Open? then c.target else None }

  function Noted(s: State, book: Book, a: Action, r: Rules): Book {
    if Replaces(s, a, r) then Book(After(s, a, r).revision, HomeOf(a.e.command), [])
    else if a.Saved? then book.(saves := book.saves + [(a.revision, a.target)])
    else book
  }

  /** A session and its book through a run of actions. */
  function Play(s: State, book: Book, actions: seq<Action>, r: Rules): (State, Book) {
    if actions == [] then (s, book)
    else
      var n := |actions| - 1;
      var (t, noted) := Play(s, book, actions[..n], r);
      (After(t, actions[n], r), Noted(t, noted, actions[n], r))
  }

  ghost predicate Plausible(s: State, book: Book, actions: seq<Action>, r: Rules) {
    forall i :: 0 <= i < |actions| ==> Possible(Play(s, book, actions[..i], r).0, actions[i])
  }

  // ---- What the writes since the replacement decide ----

  ghost predicate Newest(saves: seq<(nat, Target)>, revision: nat) {
    (forall i :: 0 <= i < |saves| ==> saves[i].0 <= revision) && exists i :: 0 <= i < |saves| && saves[i].0 == revision
  }

  /** The last write of that revision to be acknowledged. */
  ghost predicate LastOf(saves: seq<(nat, Target)>, revision: nat, i: int) {
    0 <= i < |saves| && saves[i].0 == revision && forall j :: i < j < |saves| ==> saves[j].0 != revision
  }

  ghost predicate Written(saves: seq<(nat, Target)>, revision: nat) {
    exists i :: 0 <= i < |saves| && saves[i].0 == revision
  }

  /** The newest write acknowledged names the file, and nothing else does but the replacement itself. */
  ghost predicate NamedRight(s: State, book: Book) {
    if book.saves == [] then s.acknowledged.None? && s.target == book.home
    else
      && s.acknowledged.Some? && Newest(book.saves, s.acknowledged.value)
      && forall i :: LastOf(book.saves, s.acknowledged.value, i) ==> s.target == Some(book.saves[i].1)
  }

  /** The document is clean exactly at its first revision and at the revisions written. */
  ghost predicate CleanRight(s: State, book: Book) {
    !IsDirty(s) <==> s.revision == book.born || Written(book.saves, s.revision)
  }

  ghost predicate Booked(s: State, book: Book) {
    && book.born <= s.revision && s.clean <= s.revision
      && (forall i :: 0 <= i < |book.saves| ==> book.saves[i].0 <= s.revision)
    && NamedRight(s, book) && CleanRight(s, book)
  }

  // ---- One action ----

  /** How a step moved the marks: not at all, by one edit, or by a replacement. */
  ghost predicate MarksSame(s: State, t: State) {
    t.clean == s.clean && t.acknowledged == s.acknowledged && t.target == s.target
  }

  ghost predicate MarksMoved(s: State, t: State, replaced: Option<SessionCommand>) {
    if replaced.Some?
    then t.revision == s.revision + 1 == t.clean && t.acknowledged.None? && t.target == HomeOf(replaced.value)
    else MarksSame(s, t) && s.revision <= t.revision <= s.revision + 1
  }

  lemma ApplyMarks(s: State, e: Envelope, r: Rules)
    requires Apply(s, e, r).Done?
    ensures MarksMoved(s, Apply(s, e, r).state, if ReplacesDocument(e.command) then Some(e.command) else None)
  {
  }

  lemma AppliedMarks(s: State, t: State, e: Envelope, r: Rules)
    requires AppliedFrom(s, t, e, r)
    ensures MarksMoved(s, t, if ReplacesDocument(e.command) then Some(e.command) else None)
  {
    ApplyMarks(ImplicitClose(s, e), e, r);
    hide Apply;
  }

  lemma SubmitMarks(s: State, e: Envelope, r: Rules)
    ensures MarksMoved(s, Submit(s, e, r).0, if Replaces(s, Submitted(e), r) then Some(e.command) else None)
  {
    if Submit(s, e, r).1.Refused? {
      RefusalChangesNothingIff(s, e, r);
    } else if Replay(s, e).None? {
      AcceptanceAppliesOnce(s, e, r);
      AppliedMarks(s, Submit(s, e, r).0, e, r);
    }
    hide SubmitInner, Staged, Find, AppliedFrom;
  }

  lemma SubmitWithMarks(s: State, e: Envelope, schemas: Schemas, r: Rules)
    ensures MarksMoved(s, SubmitWithSchemas(s, e, schemas, r).0,
                       if Replaces(s, SubmittedWith(e, schemas), r) then Some(e.command) else None)
  {
    if SubmitWithSchemas(s, e, schemas, r).1.Refused? {
      RefusedSchemaEditIsAtomic(s, e, schemas, r);
    } else if Replay(s, e).None? {
      SchemaAcceptanceAppliesOnce(s, e, schemas, r);
      AppliedMarks(WithSchemas(s, e, schemas), SubmitWithSchemas(s, e, schemas, r).0, e, r);
    }
    hide SubmitInner, Find, AppliedFrom;
  }

  lemma MovedStaysBooked(s: State, t: State, book: Book, replaced: Option<SessionCommand>)
    requires Booked(s, book) && MarksMoved(s, t, replaced)
    ensures Booked(t, if replaced.Some? then Book(t.revision, HomeOf(replaced.value), []) else book)
  {
    if replaced.None? && t.revision != s.revision {
      assert !Written(book.saves, t.revision);
    }
  }

  lemma SavedNames(s: State, book: Book, revision: nat, target: Target)
    requires NamedRight(s, book)
    ensures NamedRight(AcknowledgeSave(s, revision, target).0, book.(saves := book.saves + [(revision, target)]))
  {
    var saves, n, t := book.saves + [(revision, target)], |book.saves|, AcknowledgeSave(s, revision, target).0;
    var v := t.acknowledged.value;
    assert saves[n] == (revision, target) && forall i :: 0 <= i < n ==> saves[i] == book.saves[i];
    SavedNewest(s, book, revision, target);
    forall i | LastOf(saves, v, i) ensures t.target == Some(saves[i].1) {
      if i < n { assert LastOf(book.saves, v, i); }
    }
  }

  lemma SavedNewest(s: State, book: Book, revision: nat, target: Target)
    requires NamedRight(s, book)
    ensures var t := AcknowledgeSave(s, revision, target).0;
      t.acknowledged.Some? && Newest(book.saves + [(revision, target)], t.acknowledged.value)
  {
    var saves, n := book.saves + [(revision, target)], |book.saves|;
    assert saves[n] == (revision, target) && forall i :: 0 <= i < n ==> saves[i] == book.saves[i];
    if book.saves != [] {
      var i :| 0 <= i < n && book.saves[i].0 == s.acknowledged.value;
      assert saves[i].0 == s.acknowledged.value;
    }
    hide LastOf;
  }

  lemma SavedCleans(s: State, book: Book, revision: nat, target: Target)
    requires Booked(s, book) && revision <= s.revision
    ensures CleanRight(AcknowledgeSave(s, revision, target).0, book.(saves := book.saves + [(revision, target)]))
  {
    var saves, n := book.saves + [(revision, target)], |book.saves|;
    assert saves[n] == (revision, target) && forall i :: 0 <= i < n ==> saves[i] == book.saves[i];
    assert Written(saves, s.revision) <==> Written(book.saves, s.revision) || revision == s.revision;
    assert s.acknowledged.Some? ==> s.acknowledged.value <= s.revision;
    hide NamedRight, Written;
  }

  /** Every action keeps the book right. */
  lemma ActionKeepsBook(s: State, book: Book, a: Action, r: Rules)
    requires Booked(s, book) && Possible(s, a)
    ensures Booked(After(s, a, r), Noted(s, book, a, r))
  {
    hide Booked, Submit, SubmitWithSchemas, MarksMoved;
    match a
    case Submitted(e) =>
      SubmitMarks(s, e, r);
      MovedStaysBooked(s, After(s, a, r), book, if Replaces(s, a, r) then Some(e.command) else None);
    case SubmittedWith(e, schemas) =>
      SubmitWithMarks(s, e, schemas, r);
      MovedStaysBooked(s, After(s, a, r), book, if Replaces(s, a, r) then Some(e.command) else None);
    case Adopted(schemas, actor) => AdoptKeepsBook(s, book, schemas, actor);
    case Saved(revision, target) => SaveKeepsBook(s, book, revision, target);
  }

  lemma AdoptKeepsBook(s: State, book: Book, schemas: Schemas, actor: nat)
    requires Booked(s, book)
    ensures Booked(AdoptSchemas(s, schemas, actor), book)
  {
    MovedStaysBooked(s, AdoptSchemas(s, schemas, actor), book, None);
  }

  lemma SaveKeepsBook(s: State, book: Book, revision: nat, target: Target)
    requires Booked(s, book) && revision <= s.revision
    ensures Booked(AcknowledgeSave(s, revision, target).0, book.(saves := book.saves + [(revision, target)]))
  {
    SavedNames(s, book, revision, target);
    SavedCleans(s, book, revision, target);
    hide NamedRight, CleanRight;
  }

  /**
   Through every interleaving of submissions, replacements and acknowledgements: the newest write acknowledged since
   the last replacement names the file, else the replacement did; and the document is clean exactly at its first
   revision and at those written.
   */
  lemma {:induction false} SavesInAnyOrder(s: State, book: Book, actions: seq<Action>, r: Rules)
    requires Booked(s, book) && Plausible(s, book, actions, r)
    ensures Booked(Play(s, book, actions, r).0, Play(s, book, actions, r).1)
  {
    hide Booked, After, Noted, Possible;
    if actions == [] {
    } else {
      var n := |actions| - 1;
      forall i | 0 <= i < n ensures Possible(Play(s, book, actions[..n][..i], r).0, actions[..n][i]) {
        assert actions[..n][..i] == actions[..i];
      }
      SavesInAnyOrder(s, book, actions[..n], r);
      assert Possible(Play(s, book, actions[..n], r).0, actions[n]);
      ActionKeepsBook(Play(s, book, actions[..n], r).0, Play(s, book, actions[..n], r).1, actions[n], r);
    }
  }

  lemma NewSessionIsBooked(schemas: Schemas, depth: nat, maxBatch: nat)
    ensures Booked(NewState(schemas, depth, maxBatch), Book(0, None, []))
  {
  }

  // ---- Whose file is named ----

  /** The write whose file is named: the last acknowledged of the newest revision. */
  ghost predicate Names(saves: seq<(nat, Target)>, i: int) {
    && 0 <= i < |saves| && (forall j :: 0 <= j < |saves| ==> saves[j].0 <= saves[i].0)
    && forall j :: i < j < |saves| ==> saves[j].0 < saves[i].0
  }

  /** No earlier document's write names the file: the replacement does, or a write of the present document. */
  ghost predicate Ours(book: Book) { forall i :: Names(book.saves, i) ==> book.saves[i].0 >= book.born }

  lemma SomeWriteNames(saves: seq<(nat, Target)>) returns (i: nat)
    requires saves != []
    ensures Names(saves, i)
  {
    if |saves| == 1 {
      i := 0;
    } else {
      var n := |saves| - 1;
      i := SomeWriteNames(saves[..n]);
      assert forall j :: 0 <= j < n ==> saves[..n][j] == saves[j];
      if saves[i].0 <= saves[n].0 { i := n; }
    }
  }

  /** The file named is that of the naming write, or the replacement's if there is none. */
  lemma NamedByItsWrite(s: State, book: Book, i: int)
    requires Booked(s, book) && Names(book.saves, i)
    ensures s.target == Some(book.saves[i].1) && s.acknowledged == Some(book.saves[i].0)
  {
    assert Newest(book.saves, s.acknowledged.value);
    assert book.saves[i].0 == s.acknowledged.value;
    assert LastOf(book.saves, s.acknowledged.value, i);
    hide CleanRight;
  }

  /**
   The file named belongs to the present document exactly when nothing was acknowledged since the replacement, or
   something not older than it was; the session's own mark tells which.
   */
  lemma FileIsOursIff(s: State, book: Book)
    requires Booked(s, book)
    ensures Ours(book) <==> book.saves == [] || exists i :: 0 <= i < |book.saves| && book.saves[i].0 >= book.born
    ensures Ours(book) <==> s.acknowledged.None? || s.acknowledged.value >= book.born
  {
    if book.saves == [] {
      assert s.acknowledged.None?;
    } else {
      var i := SomeWriteNames(book.saves);
      NamedByItsWrite(s, book, i);
      hide Booked;
    }
  }

  /** And it has belonged to it ever since, exactly when the first write acknowledged was not older. */
  lemma FileStaysOursIff(book: Book)
    ensures (forall k :: 0 <= k <= |book.saves| ==> Ours(book.(saves := book.saves[..k]))) <==>
      book.saves == [] || book.saves[0].0 >= book.born
  {
    if book.saves == [] {
    } else if book.saves[0].0 >= book.born {
      FirstSetsTheFloor(book);
    } else {
      hide Ours;
      FirstIsForeign(book);
      assert !Ours(book.(saves := book.saves[..1]));
    }
  }

  lemma FirstIsForeign(book: Book)
    requires book.saves != [] && book.saves[0].0 < book.born
    ensures !Ours(book.(saves := book.saves[..1]))
  {
    assert Names(book.saves[..1], 0);
  }

  lemma FirstSetsTheFloor(book: Book)
    requires book.saves != [] && book.saves[0].0 >= book.born
    ensures forall k :: 0 <= k <= |book.saves| ==> Ours(book.(saves := book.saves[..k]))
  {
    forall k, i | 0 <= k <= |book.saves| && Names(book.saves[..k], i) ensures book.saves[..k][i].0 >= book.born {
      assert book.saves[..k][0].0 <= book.saves[..k][i].0;
    }
  }

  /** A run in which it does not: the empty new document names the file a write of the discarded one went to. */
  lemma LateWriteRenames(r: Rules, edit: EditCommand, file: Target) returns (actions: seq<Action>)
    requires !edit.scientific && r.update(EMPTY, [edit], 0).Some?
    ensures Plausible(NewState(0, 1, 1), Book(0, None, []), actions, r)
    ensures var (t, book) := Play(NewState(0, 1, 1), Book(0, None, []), actions, r);
      t.contents == EMPTY && !IsDirty(t) && t.target == Some(file) && !Ours(book)
  {
    hide Submit, Replay, Play, Plausible;
    var s, book := NewState(0, 1, 1), Book(0, None, []);
    var edited := Submitted(Envelope(0, 0, Some(0), None, Edit([edit])));
    var replaced := Submitted(Envelope(1, 0, Some(1), None, New(true)));
    var saved := Saved(1, file);
    actions := [edited, replaced, saved];
    EditThenNew(r, edit, edited.e, replaced.e);
    var t := After(s, edited, r);
    var u := After(t, replaced, r);
    PlayThree(s, book, edited, replaced, saved, r);
    assert !Replaces(s, edited, r) && Replaces(t, replaced, r);
    var noted := Book(2, None, [(1, file)]);
    assert Noted(u, Noted(t, Noted(s, book, edited, r), replaced, r), saved, r) == noted;
    hide Noted, Replaces;
    assert Names(noted.saves, 0);
  }

  lemma EditThenNew(r: Rules, edit: EditCommand, e: Envelope, f: Envelope)
    requires !edit.scientific && r.update(EMPTY, [edit], 0).Some?
    requires e == Envelope(0, 0, Some(0), None, Edit([edit])) && f == Envelope(1, 0, Some(1), None, New(true))
    ensures var t := Submit(NewState(0, 1, 1), e, r).0;
      && Submit(NewState(0, 1, 1), e, r).1.Accepted? && t.revision == 1
      && Replay(t, f).None? && Submit(t, f, r).1.Accepted? && Submit(t, f, r).0.revision == 2
      && Submit(t, f, r).0.clean == 2 && Submit(t, f, r).0.acknowledged.None? && Submit(t, f, r).0.contents == EMPTY
  {
  }

  lemma PlayThree(s: State, book: Book, a: Action, b: Action, c: Action, r: Rules)
    ensures var t, u := After(s, a, r), After(After(s, a, r), b, r);
      && Play(s, book, [a, b, c], r) == (After(u, c, r), Noted(u, Noted(t, Noted(s, book, a, r), b, r), c, r))
      && (Possible(s, a) && Possible(t, b) && Possible(u, c) ==> Plausible(s, book, [a, b, c], r))
  {
    hide After, Noted, Possible;
    assert [a, b, c][..2] == [a, b] && [a, b, c][..1] == [a] && [a, b, c][..0] == [];
    assert [a, b][..1] == [a] && [a][..0] == [];
    assert Play(s, book, [a], r).0 == After(s, a, r);
    assert Play(s, book, [a, b], r).0 == After(After(s, a, r), b, r);
  }
}
