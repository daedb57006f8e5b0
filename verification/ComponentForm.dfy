/**
 Component choices and proposals (apps/kagami/src/component_form.rs): what a proposal keeps of the
 document's and the captured physics' provider choices, and whose consent adopts it.
 The scene, its saved choices and the captured selection are read from the document's snapshot and passed in.
 */
module ComponentForm {
  import opened Aggregates
  import opened Document
  import opened LockComposition
  import opened LockValidation
  import opened ProviderLock
  import AP = AttachmentProperties

  const MAX_ROOTS := 4096
  const MAX_BINDINGS := 4096

  type ObjectId = nat

  /** A component type: pinned to an exact contribution, or a legacy name. */
  datatype Component = Exact(pin: Pin) | Legacy(name: nat)

  datatype Use = Use(target: ObjectId, component: Component)

  /**
   What the snapshot holds: components by object, saved choices, and the captured selection if physics is captured.
   */
  datatype Scene = Scene(objects: seq<(ObjectId, seq<Component>)>, saved: Option<Lock>, captured: Option<Lock>,
                         schemas: map<Component, AP.Schema>)

  /** Saved choices were validated when they were accepted, perhaps under other budgets; captured ones are raw. */
  ghost predicate Sound(scene: Scene) { IsLock(scene.saved) }

  /** What every stored lock is, whatever budgets it was accepted under. */
  ghost predicate IsLock(l: Option<Lock>) { l.Some? ==> Graph(l.value, MAX_DEPTH) }

  datatype Edit = Detach(use: Use) | Attach(use: Use, values: AP.Values) | AdoptDependencies(lock: Lock)

  predicate Holds(big: Bindings, small: Bindings) {
    forall k :: k in small ==> k in big && big[k] == small[k]
  }

  // ---- The roots of a scene ----

  /** The exact components of a scene, without the one being replaced. */
  ghost predicate InScene(scene: Scene, replaced: Option<Use>, pin: Pin) {
    exists i, j :: 0 <= i < |scene.objects| && 0 <= j < |scene.objects[i].1|
      && Carries(scene.objects[i], j, replaced, Exact(pin))
  }

  predicate Carries(entry: (ObjectId, seq<Component>), j: nat, replaced: Option<Use>, component: Component)
    requires j < |entry.1|
  {
    entry.1[j] == component && replaced != Some(Use(entry.0, component))
  }

  ghost predicate NoLegacy(scene: Scene, replaced: Option<Use>) {
    forall i, j :: 0 <= i < |scene.objects| && 0 <= j < |scene.objects[i].1| ==> Allowed(scene.objects[i], j, replaced)
  }

  /** The roots of the first `i` objects and of `j` components of the next. */
  ghost predicate Gathered(scene: Scene, replaced: Option<Use>, i: nat, j: nat, roots: set<Pin>) {
    && (forall a, b :: 0 <= a < i && a < |scene.objects| && 0 <= b < |scene.objects[a].1| ==>
          Noted(scene.objects[a], b, replaced, roots))
    && (i < |scene.objects| ==> forall b :: 0 <= b < j && b < |scene.objects[i].1| ==>
          Noted(scene.objects[i], b, replaced, roots))
    && (forall p :: p in roots ==> InScene(scene, replaced, p))
    && |roots| <= MAX_ROOTS
  }

  predicate Noted(entry: (ObjectId, seq<Component>), b: nat, replaced: Option<Use>, roots: set<Pin>)
    requires b < |entry.1|
  {
    entry.1[b].Exact? && replaced != Some(Use(entry.0, entry.1[b])) ==> entry.1[b].pin in roots
  }

  ghost predicate LegacyFree(scene: Scene, replaced: Option<Use>, i: nat, j: nat) {
    && (forall a, b :: 0 <= a < i && a < |scene.objects| && 0 <= b < |scene.objects[a].1| ==>
          Allowed(scene.objects[a], b, replaced))
    && (i < |scene.objects| ==>
          forall b :: 0 <= b < j && b < |scene.objects[i].1| ==> Allowed(scene.objects[i], b, replaced))
  }

  /** Not a legacy component, unless it is the one being replaced. */
  predicate Allowed(entry: (ObjectId, seq<Component>), b: nat, replaced: Option<Use>)
    requires b < |entry.1|
  {
    entry.1[b].Legacy? ==> replaced == Some(Use(entry.0, entry.1[b]))
  }

  /** The roots a proposal starts from. */
  ghost function SceneRoots(scene: Scene, replaced: Option<Use>): (roots: set<Pin>)
    ensures forall p :: p in roots <==> InScene(scene, replaced, p)
  {
    var roots := set i, j | 0 <= i < |scene.objects| && 0 <= j < |scene.objects[i].1|
      && Rooted(scene.objects[i], j, replaced)
      :: scene.objects[i].1[j].pin;
    assert forall p :: InScene(scene, replaced, p) ==> p in roots by {
      forall p | InScene(scene, replaced, p) ensures p in roots {
        var i, j :| 0 <= i < |scene.objects| && 0 <= j < |scene.objects[i].1|
          && Carries(scene.objects[i], j, replaced, Exact(p));
        assert Rooted(scene.objects[i], j, replaced);
      }
    }
    roots
  }

  predicate Rooted(entry: (ObjectId, seq<Component>), j: nat, replaced: Option<Use>)
    requires j < |entry.1|
  {
    entry.1[j].Exact? && Carries(entry, j, replaced, entry.1[j])
  }

  /** Exactly the scene's exact components, or a refusal: over budget, or a legacy component under a full reset. */
  method CollectRoots(scene: Scene, replaced: Option<Use>, reset: bool) returns (roots: Option<set<Pin>>)
    ensures roots.Some? <==> |SceneRoots(scene, replaced)| <= MAX_ROOTS && (reset ==> NoLegacy(scene, replaced))
    ensures roots.Some? ==> roots.value == SceneRoots(scene, replaced)
  {
    hide InScene, NoLegacy, LegacyFree, Gathered, SceneRoots;
    var found: set<Pin>, i := {}, 0;
    NothingGathered(scene, replaced);
    while i < |scene.objects|
      invariant 0 <= i <= |scene.objects| && Gathered(scene, replaced, i, 0, found)
      invariant reset ==> LegacyFree(scene, replaced, i, 0)
    {
      var (id, components) := scene.objects[i];
      var j := 0;
      while j < |components|
        invariant 0 <= j <= |components| && Gathered(scene, replaced, i, j, found)
        invariant reset ==> LegacyFree(scene, replaced, i, j)
      {
        var component := components[j];
        if replaced == Some(Use(id, component)) {
          Passed(scene, replaced, i, j, found);
        } else if component.Legacy? {
          if reset {
            LegacySeen(scene, replaced, i, j);
            return None;
          }
          Passed(scene, replaced, i, j, found);
        } else {
          if |found| == MAX_ROOTS && component.pin !in found {
            Overfull(scene, replaced, i, j, found);
            return None;
          }
          AddRoot(scene, replaced, i, j, found);
          Passed(scene, replaced, i, j, found);
          found := found + {component.pin};
        }
        j := j + 1;
      }
      NextObject(scene, replaced, i, found);
      i := i + 1;
    }
    AllGathered(scene, replaced, found);
    roots := Some(found);
  }

  lemma NothingGathered(scene: Scene, replaced: Option<Use>)
    ensures Gathered(scene, replaced, 0, 0, {}) && LegacyFree(scene, replaced, 0, 0)
  {
  }

  lemma Passed(scene: Scene, replaced: Option<Use>, i: nat, j: nat, found: set<Pin>)
    requires i < |scene.objects| && j < |scene.objects[i].1|
    ensures Gathered(scene, replaced, i, j, found) && Noted(scene.objects[i], j, replaced, found) ==>
      Gathered(scene, replaced, i, j + 1, found)
    ensures LegacyFree(scene, replaced, i, j) && Allowed(scene.objects[i], j, replaced) ==>
      LegacyFree(scene, replaced, i, j + 1)
  {
  }

  lemma LegacySeen(scene: Scene, replaced: Option<Use>, i: nat, j: nat)
    requires i < |scene.objects| && j < |scene.objects[i].1| && scene.objects[i].1[j].Legacy?
    requires replaced != Some(Use(scene.objects[i].0, scene.objects[i].1[j]))
    ensures !NoLegacy(scene, replaced)
  {
    assert !Allowed(scene.objects[i], j, replaced);
  }

  lemma PinInScene(scene: Scene, replaced: Option<Use>, i: nat, j: nat)
    requires i < |scene.objects| && j < |scene.objects[i].1| && scene.objects[i].1[j].Exact?
    requires replaced != Some(Use(scene.objects[i].0, scene.objects[i].1[j]))
    ensures InScene(scene, replaced, scene.objects[i].1[j].pin)
  {
    assert Carries(scene.objects[i], j, replaced, Exact(scene.objects[i].1[j].pin));
  }

  lemma Overfull(scene: Scene, replaced: Option<Use>, i: nat, j: nat, found: set<Pin>)
    requires i < |scene.objects| && j < |scene.objects[i].1| && scene.objects[i].1[j].Exact?
    requires replaced != Some(Use(scene.objects[i].0, scene.objects[i].1[j]))
    requires Gathered(scene, replaced, i, j, found) && |found| == MAX_ROOTS && scene.objects[i].1[j].pin !in found
    ensures |SceneRoots(scene, replaced)| > MAX_ROOTS
  {
    PinInScene(scene, replaced, i, j);
    hide InScene, SceneRoots;
    Subset(found + {scene.objects[i].1[j].pin}, SceneRoots(scene, replaced));
  }

  lemma AddRoot(scene: Scene, replaced: Option<Use>, i: nat, j: nat, found: set<Pin>)
    requires i < |scene.objects| && j < |scene.objects[i].1| && scene.objects[i].1[j].Exact?
    requires replaced != Some(Use(scene.objects[i].0, scene.objects[i].1[j]))
    requires Gathered(scene, replaced, i, j, found) && (|found| != MAX_ROOTS || scene.objects[i].1[j].pin in found)
    ensures Gathered(scene, replaced, i, j + 1, found + {scene.objects[i].1[j].pin})
  {
    PinInScene(scene, replaced, i, j);
    hide InScene;
    var more := found + {scene.objects[i].1[j].pin};
    if scene.objects[i].1[j].pin in found { assert more == found; }
    forall a, b | 0 <= a < i && 0 <= b < |scene.objects[a].1| ensures Noted(scene.objects[a], b, replaced, more) {
      assert Noted(scene.objects[a], b, replaced, found);
    }
    forall b | 0 <= b < j + 1 && b < |scene.objects[i].1| ensures Noted(scene.objects[i], b, replaced, more) {
      if b < j { assert Noted(scene.objects[i], b, replaced, found); }
    }
  }

  lemma NextObject(scene: Scene, replaced: Option<Use>, i: nat, found: set<Pin>)
    requires i < |scene.objects|
    ensures Gathered(scene, replaced, i, |scene.objects[i].1|, found) ==> Gathered(scene, replaced, i + 1, 0, found)
    ensures LegacyFree(scene, replaced, i, |scene.objects[i].1|) ==> LegacyFree(scene, replaced, i + 1, 0)
  {
  }

  lemma AllGathered(scene: Scene, replaced: Option<Use>, found: set<Pin>)
    requires Gathered(scene, replaced, |scene.objects|, 0, found)
    ensures found == SceneRoots(scene, replaced) && |found| <= MAX_ROOTS
    ensures LegacyFree(scene, replaced, |scene.objects|, 0) ==> NoLegacy(scene, replaced)
  {
    forall p | InScene(scene, replaced, p) ensures p in found {
      var i, j :| 0 <= i < |scene.objects| && 0 <= j < |scene.objects[i].1|
        && Carries(scene.objects[i], j, replaced, Exact(p));
      assert Noted(scene.objects[i], j, replaced, found);
    }
    hide InScene, SceneRoots;
  }

  // ---- What a proposal keeps ----

  /** Surviving roots, and the new root if it was already chosen. */
  function KeepRoots(saved: Lock, roots: set<Pin>, attachment: Option<Use>): set<Pin> {
    if attachment.Some? && attachment.value.component.Exact? && attachment.value.component.pin in saved.members
    then roots + {attachment.value.component.pin} else roots
  }

  ghost function KeptSaved(scene: Scene, attachment: Option<Use>, replacement: Option<Use>): Option<Lock> {
    if scene.saved.None? || replacement.None? then scene.saved
    else Some(Pruned(scene.saved.value, KeepRoots(scene.saved.value, SceneRoots(scene, replacement), attachment)))
  }

  /**
   Saved choices are refused only when a replacement's surviving roots are outside them or their graph is over budget.
   */
  ghost predicate SavedSurvives(scene: Scene, attachment: Option<Use>, replacement: Option<Use>, limits: Limits) {
    scene.saved.Some? && replacement.Some? ==>
      Prunable(scene.saved.value, KeepRoots(scene.saved.value, SceneRoots(scene, replacement), attachment), limits)
  }

  ghost function KeptCaptured(scene: Scene, roots: set<Pin>): Option<Lock> {
    if scene.captured.None? then None else Some(Pruned(scene.captured.value, roots * scene.captured.value.members))
  }

  /** Captured choices must be a valid graph, prune within budget, and merge with the saved ones without replacement. */
  ghost predicate CapturedJoins(scene: Scene, roots: set<Pin>, saved: Option<Lock>, limits: Limits) {
    scene.captured.Some? ==>
      && Prunable(scene.captured.value, roots * scene.captured.value.members, limits)
      && (saved.Some? ==> Mergeable(saved.value, KeptCaptured(scene, roots).value, limits))
  }

  /** All the choices a proposal keeps. */
  ghost function Kept(scene: Scene, roots: set<Pin>, saved: Option<Lock>): Option<Lock> {
    if scene.captured.None? then saved
    else if saved.None? then KeptCaptured(scene, roots)
    else Some(Union(saved.value, KeptCaptured(scene, roots).value))
  }

  /** A lock holds another when pruning it to the other's roots gives the other back. */
  ghost predicate Contains(whole: Lock, part: Option<Lock>) {
    part.Some? ==> Pruned(whole, part.value.roots) == part.value
  }

  lemma ContainsHolds(whole: Lock, part: Option<Lock>)
    requires Contains(whole, part) && part.Some?
    ensures Holds(whole.bindings, part.value.bindings)
  {
  }

  lemma ContainsItself(l: Lock, depth: nat)
    requires Graph(l, depth)
    ensures Pruned(l, l.roots) == l
  {
  }

  lemma ValidIsLock(l: Lock, limits: Limits)
    requires Validated(l, limits)
    ensures IsLock(Some(l))
  {
    DeeperIsFine(l, limits.Depth(), MAX_DEPTH);
  }

  /** Holding is transitive: what a held lock holds is held. */
  lemma ContainsIsTransitive(whole: Lock, middle: Lock, part: Lock, depth: nat)
    requires Graph(whole, depth) && Graph(middle, depth) && Graph(part, depth)
    requires Contains(whole, Some(middle)) && Contains(middle, Some(part))
    ensures Contains(whole, Some(part))
  {
    ReachIsClosed(whole, middle.roots, depth);
    ReachIsClosed(middle, part.roots, depth);
    SameReach(whole, middle, part.roots, depth);
    hide Reach, Spanned, Heights, Closed;
    assert Restricted(whole.bindings, part.members) == Restricted(middle.bindings, part.members);
  }

  lemma SameReach(whole: Lock, middle: Lock, roots: set<Pin>, depth: nat)
    requires Graph(whole, depth) && Graph(middle, depth) && Contains(whole, Some(middle)) && roots <= middle.members
    ensures Reach(whole, roots) == Reach(middle, roots)
  {
  }

  /** The saved choices that survive. */
  method PreserveSaved(scene: Scene, roots: set<Pin>, attachment: Option<Use>, replacement: Option<Use>, limits: Limits)
    returns (ok: bool, kept: Option<Lock>)
    requires Sound(scene) && roots == SceneRoots(scene, replacement)
    ensures ok <==> SavedSurvives(scene, attachment, replacement, limits)
    ensures ok ==> kept == KeptSaved(scene, attachment, replacement) && IsLock(kept)
  {
    hide Graph, Pruned, Prunable, SceneRoots, Validated, KeepRoots;
    if scene.saved.None? || replacement.None? { return true, scene.saved; }
    kept := ForRoots(scene.saved.value, KeepRoots(scene.saved.value, roots, attachment), limits);
    ok := kept.Some?;
    if ok { ValidIsLock(kept.value, limits); }
  }

  /** The captured choices the proposal's roots use, merged without replacement; disagreement is refused. */
  method PreserveCaptured(scene: Scene, roots: set<Pin>, saved: Option<Lock>, limits: Limits)
    returns (preserved: Option<Lock>)
    requires IsLock(saved) && scene.captured.Some?
    ensures preserved.Some? <==> CapturedJoins(scene, roots, saved, limits)
    ensures preserved.Some? ==> preserved == Kept(scene, roots, saved) && IsLock(preserved)
    ensures preserved.Some? ==>
      Contains(preserved.value, saved)
      && Contains(preserved.value, KeptCaptured(scene, roots))
  {
    hide Graph, Pruned, Validated, Mergeable, Union, IsLock;
    var valid := Validate(scene.captured.value, limits);
    if !valid { return None; }
    var retained := ForRoots(scene.captured.value, roots * scene.captured.value.members, limits);
    if retained.None? { return None; }
    if saved.Some? {
      preserved := Merge(saved.value, retained.value, limits);
    } else {
      ItselfValid(retained.value, limits);
      preserved := retained;
    }
    if preserved.Some? { ValidIsLock(preserved.value, limits); }
  }

  lemma ItselfValid(l: Lock, limits: Limits)
    requires Validated(l, limits)
    ensures Pruned(l, l.roots) == l
  {
    ContainsItself(l, limits.Depth());
  }

  // ---- The proposal ----

  /** A captured binding may only be the captured provider or the accepted one. */
  predicate FrozenKept(bindings: Bindings, base: Bindings, frozen: Bindings) {
    forall k :: k in bindings && k in frozen ==> bindings[k] == frozen[k] || (k in base && bindings[k] == base[k])
  }

  datatype Agreement = Agreement(bindings: Bindings, values: Option<AP.Values>)

  class ComponentForm {
    const limits: Limits
    const budget: AP.Budget
    const guard: Option<Guard>
    const roots: set<Pin>
    const base: Bindings
    const attachment: Option<Use>
    const replacement: Option<Use>
    const preserved: Option<Lock>
    const capturedAddition: bool
    const capturedReset: bool
    const frozen: Bindings
    var generation: nat
    var nextToken: nat
    var bindings: Bindings
    var properties: AP.Properties?
    var confirmed: Option<nat>
    ghost var agreed: Agreement

    ghost predicate Valid()
      reads this, properties
    {
      && generation < nextToken && (confirmed.Some? ==> confirmed.value < nextToken)
      && |bindings| <= MAX_BINDINGS && |base| <= MAX_BINDINGS
      && base == (if preserved.Some? then preserved.value.bindings else map[]) && IsLock(preserved)
      && (PinsBase() ==> Holds(bindings, base))
      && FrozenKept(bindings, base, frozen)
      && (properties != null ==> properties.Valid(budget))
      && (HistoryConfirmed() ==> agreed == Present())
    }

    /** An attachment outside a full reset may not lose or change an accepted choice. */
    predicate PinsBase() {
      attachment.Some? && !capturedReset
    }

    /** Consent stands for the present proposal. */
    predicate HistoryConfirmed()
      reads this
    {
      confirmed == Some(generation)
    }

    /** The choices and values a consent would be for. */
    ghost function Present(): Agreement
      reads this, properties
    {
      Agreement(bindings, if properties == null then None else Some(properties.values))
    }

    predicate Current(document: Document)
      reads document
    {
      guard.Some? && document.AcceptsEffect(guard.value)
    }

    constructor (limits: Limits, budget: AP.Budget, guard: Option<Guard>, roots: set<Pin>, base: Bindings,
                 attachment: Option<Use>, replacement: Option<Use>, preserved: Option<Lock>,
                 addition: bool, reset: bool, frozen: Bindings, properties: AP.Properties?, token: nat)
      requires |base| <= MAX_BINDINGS && IsLock(preserved) && (properties != null ==> properties.Valid(budget))
      requires base == if preserved.Some? then preserved.value.bindings else map[]
      ensures Valid() && bindings == base && !HistoryConfirmed()
      ensures this.limits == limits && this.budget == budget && this.guard == guard && this.roots == roots
      ensures this.base == base
      ensures this.attachment == attachment && this.replacement == replacement && this.preserved == preserved
      ensures capturedAddition == addition && capturedReset == reset && this.frozen == frozen
      ensures this.properties == properties
      ensures generation == token
    {
      this.limits, this.budget, this.guard, this.roots, this.base := limits, budget, guard, roots, base;
      this.attachment, this.replacement, this.preserved := attachment, replacement, preserved;
      capturedAddition, capturedReset, this.frozen, this.properties := addition, reset, frozen, properties;
      generation, nextToken, bindings, confirmed := token, token + 1, base, None;
      agreed := Agreement(base, None);
    }

    /** Grant or revoke consent, only for exactly the present proposal. */
    method ConfirmHistory(document: Document, proposal: nat, grant: bool) returns (ok: bool)
      requires Valid()
      modifies this`confirmed, this`agreed
      ensures Valid() && (ok <==> Current(document) && proposal == generation && capturedAddition)
      ensures ok <==>
        document.mode == Authoring && guard == Some(Guard(document.scope, document.view.revision))
        && proposal == generation && capturedAddition
      ensures ok ==> confirmed == if grant then Some(generation) else None
      ensures ok ==> (HistoryConfirmed() <==> grant)
      ensures ok && grant ==> agreed == Present()
      ensures !ok ==> confirmed == old(confirmed) && agreed == old(agreed)
    {
      if !Current(document) || proposal != generation || !capturedAddition { return false; }
      confirmed := if grant then Some(proposal) else None;
      agreed := Present();
      ok := true;
    }

    method ClearHistoryConsent()
      requires Valid()
      modifies this`confirmed
      ensures Valid() && !HistoryConfirmed()
    {
      confirmed := None;
    }

    method Renew()
      modifies this`generation, this`nextToken
      ensures generation == old(nextToken) && nextToken == old(nextToken) + 1
    {
      generation, nextToken := nextToken, nextToken + 1;
    }

    /** A local choice; captured and accepted providers cannot be changed by it. */
    method Bind(key: Key, provider: Pin) returns (ok: bool)
      requires Valid()
      modifies this`bindings, this`generation, this`nextToken
      ensures Valid()
      ensures ok <==> && (key in frozen ==> provider == frozen[key])
                      && (attachment.Some? && !capturedReset && key in base ==> provider == base[key])
                      && |old(bindings)[key := provider]| <= MAX_BINDINGS
      ensures bindings == if ok then old(bindings)[key := provider] else old(bindings)
      ensures ok ==> !HistoryConfirmed()
      ensures !ok ==> generation == old(generation)
    {
      if key in frozen && frozen[key] != provider { return false; }
      if attachment.Some? && !capturedReset && key in base && base[key] != provider { return false; }
      Updated(bindings, key, provider);
      if key !in bindings && |bindings| == MAX_BINDINGS { return false; }
      bindings := bindings[key := provider];
      Renew();
      ok := true;
    }

    method ClearBindings()
      requires Valid()
      modifies this`bindings, this`generation, this`nextToken
      ensures Valid() && bindings == base && !HistoryConfirmed()
    {
      bindings := base;
      Renew();
    }

    method ForgetBinding(key: Key) returns (ok: bool)
      requires Valid()
      modifies this`bindings, this`generation, this`nextToken
      ensures Valid()
      ensures ok <==> key in old(bindings) && !(attachment.Some? && !capturedReset && key in base)
      ensures bindings == if ok then old(bindings) - {key} else old(bindings)
      ensures ok ==> !HistoryConfirmed()
      ensures !ok ==> generation == old(generation)
    {
      if attachment.Some? && !capturedReset && key in base { return false; }
      if key !in bindings { return false; }
      Removed(bindings, key);
      bindings := bindings - {key};
      Renew();
      ok := true;
    }

    /** A bounded local value; a success withdraws consent, a refusal changes nothing. */
    method SetProperty(document: Document, form: nat, name: AP.Name, input: AP.Input) returns (ok: bool)
      requires Valid()
      modifies this`generation, this`nextToken, properties
      ensures Valid()
      ensures ok <==>
        Current(document) && properties != null && properties.id == form
        && old(properties != null && properties.Accepts(name, input, budget))
      ensures ok ==>
        !HistoryConfirmed()
        && properties.values == (if input.Unset? then old(properties.values) - {name}
        else old(properties.values)[name := input.value])
      ensures !ok ==> generation == old(generation) && Present() == old(Present())
      ensures ok ==>
        document.mode == Authoring && guard == Some(Guard(document.scope, document.view.revision))
    {
      hide FrozenKept, Holds;
      if !Current(document) { return false; }
      if properties == null || properties.id != form { return false; }
      ok := properties.Set(name, input, budget);
      if ok { Renew(); }
    }

    /** Fields for the component just resolved; a changed declaration is refused, never migrated. */
    method PrepareProperties(document: Document, schemas: map<Component, AP.Schema>, id: nat) returns (ok: bool)
      requires Valid()
      modifies this`properties, this`generation, this`nextToken
      ensures Valid()
      ensures ok <==>
        && Current(document) && attachment.Some? && attachment.value.component in schemas
        && (if old(properties) != null then old(properties).schema == schemas[attachment.value.component]
            else AP.Loads(schemas[attachment.value.component], budget))
      ensures ok ==> properties != null && properties.schema == schemas[attachment.value.component]
      ensures ok && old(properties) == null ==>
        !HistoryConfirmed() && properties.values == AP.Defaults(properties.schema)
      ensures !ok || old(properties) != null ==> properties == old(properties) && generation == old(generation)
    {
      if !Current(document) || attachment.None? || attachment.value.component !in schemas { return false; }
      var schema := schemas[attachment.value.component];
      if properties != null { return properties.schema == schema; }
      var loaded := AP.Load(schema, budget, id);
      if loaded == null { return false; }
      properties := loaded;
      Renew();
      ok := true;
    }

    /** A lock may be adopted with an attachment only if it holds every preserved choice, and the fields are ready. */
    ghost predicate Adoptable(prepared: Lock, schemas: map<Component, AP.Schema>)
      requires attachment.Some?
      reads this, properties
    {
      && (preserved.Some? && !capturedReset ==>
            Mergeable(preserved.value, prepared, limits) && Union(preserved.value, prepared) == prepared)
      && attachment.value.component in schemas
      && (if properties != null then properties.schema == schemas[attachment.value.component]
          else AP.Loads(schemas[attachment.value.component], budget))
    }

    /** The edits a checked lock would adopt. */
    ghost function Commands(prepared: Lock, schemas: map<Component, AP.Schema>): seq<Edit>
      requires attachment.Some? ==> attachment.value.component in schemas
      reads this, properties
    {
      if attachment.None? then [AdoptDependencies(prepared)] else
        var values := if properties != null then properties.values
          else AP.Defaults(schemas[attachment.value.component]);
        (if replacement.Some? then [Edit.Detach(replacement.value)] else [])
          + [Attach(attachment.value, values), AdoptDependencies(prepared)]
    }

    /**
     The edits of a checked lock, exactly when the proposal is current, complete, consented to and held by the lock.
     */
    method LockCommands(document: Document, prepared: Lock, schemas: map<Component, AP.Schema>)
      returns (commands: Option<seq<Edit>>)
      requires Valid() && IsLock(Some(prepared))
      ensures commands.Some? <==>
        && Current(document) && (replacement.None? || attachment.Some?) && (capturedAddition ==> HistoryConfirmed())
        && (attachment.Some? ==> Adoptable(prepared, schemas))
      ensures commands.Some? && capturedAddition ==> agreed == Present() && confirmed == Some(generation)
      ensures commands.Some? ==>
        document.mode == Authoring && guard == Some(Guard(document.scope, document.view.revision))
      ensures commands.Some? && attachment.Some? && !capturedReset ==> Contains(prepared, preserved)
      ensures commands.Some? ==> (attachment.Some? ==> attachment.value.component in schemas)
      ensures commands.Some? ==> commands.value == Commands(prepared, schemas)
      ensures commands.Some? ==>
        |commands.value| == 1 + (if attachment.Some? then 1 else 0) + (if replacement.Some? then 1 else 0)
        && commands.value[|commands.value| - 1] == AdoptDependencies(prepared)
      ensures commands.Some? && attachment.Some? ==>
        commands.value[|commands.value| - 2]
        == Attach(attachment.value, if properties != null then properties.values
                                    else AP.Defaults(schemas[attachment.value.component]))
      ensures commands.Some? && replacement.Some? ==> commands.value[0] == Edit.Detach(replacement.value)
    {
      hide Graph, Pruned, Mergeable, Union, Holds, FrozenKept, IsLock, AP.Loads, AP.Defaults;
      if !Current(document) || (replacement.Some? && attachment.None?) { return None; }
      if capturedAddition && !HistoryConfirmed() { return None; }
      var edits: seq<Edit> := [];
      if attachment.Some? {
        if preserved.Some? && !capturedReset {
          var merged := Merge(preserved.value, prepared, limits);
          if merged != Some(prepared) { return None; }
        }
        if attachment.value.component !in schemas { return None; }
        var schema := schemas[attachment.value.component];
        var values := AP.Defaults(schema);
        if properties != null {
          if properties.schema != schema { return None; }
          values := properties.values;
        } else {
          var loaded := AP.Load(schema, budget, 0);
          if loaded == null { return None; }
        }
        if replacement.Some? { edits := edits + [Edit.Detach(replacement.value)]; }
        edits := edits + [Attach(attachment.value, values)];
      }
      commands := Some(edits + [AdoptDependencies(prepared)]);
    }

    /** Choose the new component of the replacement being prepared: a new proposal, under a new token. */
    method ReplaceWith(document: Document, scene: Scene, proposal: nat, component: Component)
      returns (form: ComponentForm?)
      requires document.Valid() && Valid() && Sound(scene)
      modifies document`log
      ensures document.Valid()
      ensures form != null <==>
        && old(Current(document)) && proposal == generation && replacement.Some? && component.Exact?
        && ObjectOf(scene.objects, replacement.value.target).Some?
        && replacement.value.component in ObjectOf(scene.objects, replacement.value.target).value
        && component !in ObjectOf(scene.objects, replacement.value.target).value
        && Preparable(scene, Some(Use(replacement.value.target, component)), replacement, limits, budget)
      ensures form != null ==> fresh(form) && form.generation != generation
      ensures form != null ==> Proposes(form, scene, Some(Use(replacement.value.target, component)), replacement)
    {
      hide Preparable, Proposes, IsLock, Holds, FrozenKept, ObjectOf;
      if !Current(document) || proposal != generation || replacement.None? { return null; }
      var target := ObjectOf(scene.objects, replacement.value.target);
      if target.None? || replacement.value.component !in target.value || component in target.value { return null; }
      if component.Legacy? { return null; }
      form := Prepare(document, scene, Some(Use(replacement.value.target, component)), replacement, limits, budget,
                      nextToken);
    }
  }

  function ObjectOf(objects: seq<(ObjectId, seq<Component>)>, id: ObjectId): Option<seq<Component>> {
    if objects == [] then None else if objects[0].0 == id then Some(objects[0].1) else ObjectOf(objects[1..], id)
  }

  /** The roots of a proposal: the scene's, and the component being attached. */
  ghost function Chosen(scene: Scene, attachment: Option<Use>, replacement: Option<Use>): set<Pin> {
    if attachment.Some? && attachment.value.component.Exact?
    then SceneRoots(scene, replacement) + {attachment.value.component.pin} else SceneRoots(scene, replacement)
  }

  ghost function AllKept(scene: Scene, attachment: Option<Use>, replacement: Option<Use>): Option<Lock> {
    Kept(scene, Chosen(scene, attachment, replacement), KeptSaved(scene, attachment, replacement))
  }

  predicate Addition(scene: Scene, attachment: Option<Use>, replacement: Option<Use>) {
    attachment.Some? && replacement.None? && scene.captured.Some?
  }

  predicate Reset(scene: Scene, attachment: Option<Use>, replacement: Option<Use>) {
    !Addition(scene, attachment, replacement) && scene.captured.Some?
  }

  /** When a proposal can be prepared in Authoring mode: every choice worth keeping can be kept, all within budget. */
  ghost predicate Preparable(scene: Scene, attachment: Option<Use>, replacement: Option<Use>, limits: Limits,
                             budget: AP.Budget)
  {
    && (Reset(scene, attachment, replacement) ==> NoLegacy(scene, replacement))
    && 0 < |Chosen(scene, attachment, replacement)| <= MAX_ROOTS
    && SavedSurvives(scene, attachment, replacement, limits)
    && CapturedJoins(scene, Chosen(scene, attachment, replacement), KeptSaved(scene, attachment, replacement), limits)
    && (AllKept(scene, attachment, replacement).Some? ==>
          |AllKept(scene, attachment, replacement).value.bindings| <= MAX_BINDINGS)
    && (attachment.Some? && attachment.value.component in scene.schemas ==>
          AP.Loads(scene.schemas[attachment.value.component], budget))
  }

  /** What a new proposal is: exact roots, every choice worth keeping, and nothing consented to. */
  ghost predicate Proposes(form: ComponentForm, scene: Scene, attachment: Option<Use>, replacement: Option<Use>)
    reads form, form.properties
  {
    && form.Valid() && !form.HistoryConfirmed() && form.guard.Some?
    && form.attachment == attachment && form.replacement == replacement
    && form.roots == Chosen(scene, attachment, replacement)
    && form.capturedAddition == Addition(scene, attachment, replacement)
    && form.capturedReset == Reset(scene, attachment, replacement)
    && form.preserved == AllKept(scene, attachment, replacement)
    && form.bindings == form.base == (if form.preserved.Some? then form.preserved.value.bindings else map[])
    && form.frozen == (if form.capturedAddition then scene.captured.value.bindings else map[])
    && Preserves(form.preserved, scene, form.roots, replacement)
    && (form.properties != null <==> attachment.Some? && attachment.value.component in scene.schemas)
    && (form.properties != null ==> form.properties.values == AP.Defaults(scene.schemas[attachment.value.component]))
  }

  /** The preserved choices hold those captured for the roots in use and, unless replacing, all the saved ones. */
  ghost predicate Preserves(preserved: Option<Lock>, scene: Scene, roots: set<Pin>, replacement: Option<Use>) {
    && (scene.saved.Some? || scene.captured.Some? ==> preserved.Some?)
    && IsLock(preserved)
    && (preserved.Some? ==> Contains(preserved.value, KeptCaptured(scene, roots)))
    && (replacement.None? && preserved.Some? ==> Contains(preserved.value, scene.saved))
  }

  method AddAttachment(scene: Scene, found: set<Pin>, attachment: Option<Use>, replacement: Option<Use>)
    returns (roots: Option<set<Pin>>)
    requires found == SceneRoots(scene, replacement) && |found| <= MAX_ROOTS
    requires attachment.Some? ==> attachment.value.component.Exact?
    ensures roots.Some? <==> 0 < |Chosen(scene, attachment, replacement)| <= MAX_ROOTS
    ensures roots.Some? ==> roots.value == Chosen(scene, attachment, replacement)
  {
    hide SceneRoots;
    if attachment.None? { return if found == {} then None else Some(found); }
    var root := attachment.value.component.pin;
    if root in found { assert found + {root} == found; }
    if |found| == MAX_ROOTS && root !in found { return None; }
    roots := Some(found + {root});
  }

  lemma SceneIsChosen(scene: Scene, attachment: Option<Use>, replacement: Option<Use>)
    ensures |SceneRoots(scene, replacement)| <= |Chosen(scene, attachment, replacement)|
  {
    hide SceneRoots;
    Subset(SceneRoots(scene, replacement), Chosen(scene, attachment, replacement));
  }

  method Preserve(scene: Scene, found: set<Pin>, roots: set<Pin>, attachment: Option<Use>, replacement: Option<Use>,
                  limits: Limits)
    returns (ok: bool, preserved: Option<Lock>)
    requires Sound(scene) && found == SceneRoots(scene, replacement)
    ensures ok <==> SavedSurvives(scene, attachment, replacement, limits)
                    && CapturedJoins(scene, roots, KeptSaved(scene, attachment, replacement), limits)
    ensures ok ==> preserved == Kept(scene, roots, KeptSaved(scene, attachment, replacement))
    ensures ok ==> Preserves(preserved, scene, roots, replacement)
  {
    hide Graph, Pruned, Union, KeepRoots, SceneRoots, SavedSurvives, Prunable, Mergeable;
    ok, preserved := PreserveSaved(scene, found, attachment, replacement, limits);
    if !ok { return; }
    if preserved.Some? { ContainsItself(preserved.value, MAX_DEPTH); }
    if scene.captured.Some? {
      preserved := PreserveCaptured(scene, roots, preserved, limits);
      ok := preserved.Some?;
    }
  }

  /** Copy the accepted and captured intent a proposal must keep; nothing is executed or adopted. */
  method Prepare(document: Document, scene: Scene, attachment: Option<Use>, replacement: Option<Use>, limits: Limits,
                 budget: AP.Budget, token: nat)
    returns (form: ComponentForm?)
    requires document.Valid() && Sound(scene)
    requires attachment.Some? ==> attachment.value.component.Exact?
    modifies document`log
    ensures document.Valid()
    ensures form != null <==> document.mode == Authoring && Preparable(scene, attachment, replacement, limits, budget)
    ensures form != null ==> fresh(form) && Proposes(form, scene, attachment, replacement)
    ensures form != null ==> form.generation == token && form.limits == limits
    ensures form != null ==> document.AcceptsEffect(form.guard.value) && Captured(form.guard.value) in document.log
  {
    hide Graph, SceneRoots, NoLegacy, SavedSurvives, CapturedJoins, Kept, KeptSaved, Chosen;
    hide Preserves, Contains, Tracked, Sound, AP.Loads;
    var addition := attachment.Some? && replacement.None? && scene.captured.Some?;
    var reset := !addition && scene.captured.Some?;
    var guard := document.AuthoringGuard();
    if guard.None? { return null; }
    SceneIsChosen(scene, attachment, replacement);
    var found := CollectRoots(scene, replacement, reset);
    if found.None? { return null; }
    var roots := AddAttachment(scene, found.value, attachment, replacement);
    if roots.None? { return null; }
    var ok, preserved := Preserve(scene, found.value, roots.value, attachment, replacement, limits);
    if !ok { return null; }
    form := Stage(scene, attachment, replacement, guard, roots.value, preserved, limits, budget, token);
  }

  /** The form of a proposal whose roots and choices are known, with the declared fields of its component. */
  method Stage(scene: Scene, attachment: Option<Use>, replacement: Option<Use>, guard: Option<Guard>, roots: set<Pin>,
               preserved: Option<Lock>, limits: Limits, budget: AP.Budget, token: nat)
    returns (form: ComponentForm?)
    requires guard.Some? && roots == Chosen(scene, attachment, replacement)
    requires preserved == AllKept(scene, attachment, replacement) && Preserves(preserved, scene, roots, replacement)
    ensures form != null <==>
      && (preserved.Some? ==> |preserved.value.bindings| <= MAX_BINDINGS)
      && (attachment.Some? && attachment.value.component in scene.schemas ==>
            AP.Loads(scene.schemas[attachment.value.component], budget))
    ensures form != null ==> fresh(form) && Proposes(form, scene, attachment, replacement)
    ensures form != null ==> form.generation == token && form.limits == limits && form.guard == guard
  {
    hide AllKept, Preserves, Contains, Chosen, AP.Loads, AP.Defaults, IsLock, Holds, FrozenKept, KeptCaptured;
    var addition := attachment.Some? && replacement.None? && scene.captured.Some?;
    var reset := !addition && scene.captured.Some?;
    PreservesLock(preserved, scene, roots, replacement);
    var base: Bindings := map[];
    if preserved.Some? {
      if |preserved.value.bindings| > MAX_BINDINGS { return null; }
      base := preserved.value.bindings;
    }
    var properties: AP.Properties? := null;
    if attachment.Some? && attachment.value.component in scene.schemas {
      properties := AP.Load(scene.schemas[attachment.value.component], budget, token);
      if properties == null { return null; }
    }
    form := new ComponentForm(limits, budget, guard, roots, base, attachment, replacement, preserved, addition, reset,
      if addition then scene.captured.value.bindings else map[], properties, token);
  }

  lemma PreservesLock(preserved: Option<Lock>, scene: Scene, roots: set<Pin>, replacement: Option<Use>)
    requires Preserves(preserved, scene, roots, replacement)
    ensures IsLock(preserved)
  {
  }

  /** Through every run of edits: outside a reset, an attachment's choices hold every choice preserved at its start. */
  lemma PreservedChoicesStay(form: ComponentForm, part: Option<Lock>)
    requires form.Valid() && form.PinsBase() && form.preserved.Some? && part.Some?
    requires Contains(form.preserved.value, part)
    ensures Holds(form.bindings, part.value.bindings)
  {
    ContainsHolds(form.preserved.value, part);
    hide Pruned;
  }

  /** So every captured choice the scene's roots depend on is bound to its captured provider, whatever is edited. */
  lemma CapturedChoicesNeverChange(form: ComponentForm, scene: Scene, k: Key)
    requires form.Valid() && form.capturedAddition && form.PinsBase() && scene.captured.Some?
    requires Preserves(form.preserved, scene, form.roots, form.replacement)
    requires k in scene.captured.value.bindings
    requires k.consumer in Reach(scene.captured.value, form.roots * scene.captured.value.members)
    ensures k in form.bindings && form.bindings[k] == scene.captured.value.bindings[k]
  {
    PreservedChoicesStay(form, KeptCaptured(scene, form.roots));
    hide Reach, Graph;
  }

  /** An attachment outside a reset adopts a lock that still holds every choice the document had saved. */
  lemma AdoptionKeepsSavedChoices(form: ComponentForm, scene: Scene, prepared: Lock)
    requires form.PinsBase() && form.replacement.None? && scene.saved.Some?
    requires Sound(scene) && IsLock(Some(prepared))
    requires Preserves(form.preserved, scene, form.roots, form.replacement)
    requires Contains(prepared, form.preserved)
    ensures Contains(prepared, scene.saved)
    ensures Holds(prepared.bindings, scene.saved.value.bindings)
  {
    hide Graph, Pruned;
    ContainsIsTransitive(prepared, form.preserved.value, scene.saved.value, MAX_DEPTH);
    ContainsHolds(prepared, scene.saved);
  }

  /** Review the provider choices of the scene as it stands. */
  method FromDocument(document: Document, scene: Scene, limits: Limits, budget: AP.Budget, token: nat)
    returns (form: ComponentForm?)
    requires document.Valid() && Sound(scene)
    modifies document`log
    ensures document.Valid()
    ensures form != null <==> document.mode == Authoring && Preparable(scene, None, None, limits, budget)
    ensures form != null ==> fresh(form) && Proposes(form, scene, None, None)
  {
    hide Preparable, Proposes;
    form := Prepare(document, scene, None, None, limits, budget, token);
  }

  /** Stage one exact component on an object that lacks it and has room for it. */
  method ForAttachment(document: Document, scene: Scene, attachment: Use, maxComponents: nat, limits: Limits,
                       budget: AP.Budget, token: nat)
    returns (form: ComponentForm?)
    requires document.Valid() && Sound(scene)
    modifies document`log
    ensures document.Valid()
    ensures form != null <==>
      && document.mode == Authoring && attachment.component.Exact?
      && ObjectOf(scene.objects, attachment.target).Some?
      && attachment.component !in ObjectOf(scene.objects, attachment.target).value
      && |ObjectOf(scene.objects, attachment.target).value| < maxComponents
      && Preparable(scene, Some(attachment), None, limits, budget)
    ensures form != null ==> fresh(form) && Proposes(form, scene, Some(attachment), None)
  {
    hide Preparable, Proposes, ObjectOf;
    var target := ObjectOf(scene.objects, attachment.target);
    if target.None? || attachment.component in target.value || |target.value| >= maxComponents { return null; }
    if attachment.component.Legacy? { return null; }
    form := Prepare(document, scene, Some(attachment), None, limits, budget, token);
  }

  /** The old component is named; nothing is chosen, copied or adoptable yet. */
  method BeginReplacement(document: Document, scene: Scene, replaced: Use, limits: Limits, budget: AP.Budget,
                          token: nat)
    returns (form: ComponentForm?)
    requires document.Valid()
    modifies document`log
    ensures document.Valid()
    ensures form != null <==>
      && document.mode == Authoring && ObjectOf(scene.objects, replaced.target).Some?
      && replaced.component in ObjectOf(scene.objects, replaced.target).value
    ensures form != null ==> fresh(form) && form.Valid() && form.replacement == Some(replaced) && form.attachment.None?
    ensures form != null ==> form.bindings == map[] && form.preserved.None? && form.Current(document)
    ensures form != null ==> !form.capturedAddition && form.capturedReset == scene.captured.Some?
  {
    hide ObjectOf;
    var guard := document.AuthoringGuard();
    if guard.None? { return null; }
    var target := ObjectOf(scene.objects, replaced.target);
    if target.None? || replaced.component !in target.value { return null; }
    form := new ComponentForm(limits, budget, guard, {}, map[], None, Some(replaced), None, false, scene.captured.Some?,
      map[], null, token);
  }

  lemma Updated(m: Bindings, key: Key, provider: Pin)
    ensures |m[key := provider]| == |m| + (if key in m then 0 else 1)
  {
  }

  lemma Removed(m: Bindings, key: Key)
    ensures |m - {key}| <= |m|
  {
  }
}
