/**
 What a component proposal starts from and when there is one (apps/kagami/src/component_form.rs), choice by choice.
 */
module FormMeaning {
  import opened Aggregates
  import opened ProviderLock
  import opened LockComposition
  import opened ComponentForm
  import opened LockMeaning
  import D = Document
  import AP = AttachmentProperties

  /** Some object of the scene has this component, other than the use being replaced. */
  ghost predicate Used(scene: Scene, replaced: Option<Use>, component: Component) {
    exists i, j :: 0 <= i < |scene.objects| && 0 <= j < |scene.objects[i].1| && Has(scene, i, j, component)
      && Some(Use(scene.objects[i].0, component)) != replaced
  }

  ghost predicate Has(scene: Scene, i: nat, j: nat, component: Component)
    requires i < |scene.objects| && j < |scene.objects[i].1|
  {
    scene.objects[i].1[j] == component
  }

  /** A contribution is a root exactly if it is in use, or about to be attached. */
  ghost predicate RootsAre(roots: set<Pin>, scene: Scene, attachment: Option<Use>, replacement: Option<Use>) {
    forall pin :: pin in roots <==>
      Used(scene, replacement, Exact(pin)) || (exists id :: attachment == Some(Use(id, Exact(pin))))
  }

  /** A saved choice is kept unless a replacement leaves nothing that leads to its consumer. */
  ghost predicate SavedKeeps(scene: Scene, roots: set<Pin>, attachment: Option<Use>, replacement: Option<Use>, k: Key,
                             m: Pin)
  {
    && scene.saved.Some? && (k, m) in scene.saved.value.bindings.Items
    && (replacement.Some? ==>
          exists pin :: LeadsFrom(scene.saved.value, pin, k.consumer) && pin in roots
                        && (Used(scene, replacement, Exact(pin)) || pin in scene.saved.value.members))
  }

  /** A captured choice is kept if a root in use leads to its consumer. */
  ghost predicate CapturedKeeps(scene: Scene, roots: set<Pin>, k: Key, m: Pin) {
    && scene.captured.Some? && (k, m) in scene.captured.value.bindings.Items
    && exists pin :: LeadsFrom(scene.captured.value, pin, k.consumer) && pin in roots
                     && pin in scene.captured.value.members
  }

  ghost predicate LeadsFrom(l: Lock, from: Pin, m: Pin) { Reached(l.bindings, {from}, m) }

  lemma ReachedFrom(l: Lock, roots: set<Pin>, m: Pin)
    ensures Reached(l.bindings, roots, m) <==> exists pin :: pin in roots && LeadsFrom(l, pin, m)
  {
    if Reached(l.bindings, roots, m) {
      var w :| Leads(l.bindings, roots, w, m);
      assert Leads(l.bindings, {w[0]}, w, m);
      assert LeadsFrom(l, w[0], m);
    }
    if pin :| pin in roots && LeadsFrom(l, pin, m) {
      var w :| Leads(l.bindings, {pin}, w, m);
      assert Leads(l.bindings, roots, w, m);
    }
  }

  lemma ChosenAre(scene: Scene, attachment: Option<Use>, replacement: Option<Use>)
    ensures RootsAre(Chosen(scene, attachment, replacement), scene, attachment, replacement)
    ensures forall pin :: pin in SceneRoots(scene, replacement) <==> Used(scene, replacement, Exact(pin))
  {
    forall pin ensures InScene(scene, replacement, pin) <==> Used(scene, replacement, Exact(pin)) {
      if InScene(scene, replacement, pin) {
        var i, j :| 0 <= i < |scene.objects| && 0 <= j < |scene.objects[i].1|
          && Carries(scene.objects[i], j, replacement, Exact(pin));
        assert Has(scene, i, j, Exact(pin));
      }
      if Used(scene, replacement, Exact(pin)) {
        var i, j :| 0 <= i < |scene.objects| && 0 <= j < |scene.objects[i].1| && Has(scene, i, j, Exact(pin))
          && Some(Use(scene.objects[i].0, Exact(pin))) != replacement;
        assert Carries(scene.objects[i], j, replacement, Exact(pin));
      }
    }
    hide InScene, Used, SceneRoots;
    if attachment.Some? { assert attachment == Some(Use(attachment.value.target, attachment.value.component)); }
  }

  /** Choices that survive a replacement. */
  lemma SavedAre(scene: Scene, attachment: Option<Use>, replacement: Option<Use>, limits: Limits, k: Key, m: Pin)
    requires SavedSurvives(scene, attachment, replacement, limits) && scene.saved.Some?
    ensures var kept := KeptSaved(scene, attachment, replacement).value;
            (k, m) in kept.bindings.Items <==>
            SavedKeeps(scene, Chosen(scene, attachment, replacement), attachment, replacement, k, m)
  {
    if replacement.Some? {
      ChosenAre(scene, attachment, replacement);
      var saved, roots := scene.saved.value, KeepRoots(scene.saved.value, SceneRoots(scene, replacement), attachment);
      PrunedIs(saved, roots, limits);
      ReachedFrom(saved, roots, k.consumer);
      hide SceneRoots, Pruned, Validated, Reached, Used;
    }
  }

  lemma CapturedAre(scene: Scene, roots: set<Pin>, saved: Option<Lock>, limits: Limits, k: Key, m: Pin)
    requires CapturedJoins(scene, roots, saved, limits) && scene.captured.Some?
    ensures (k, m) in KeptCaptured(scene, roots).value.bindings.Items <==> CapturedKeeps(scene, roots, k, m)
  {
    var captured := scene.captured.value;
    PrunedIs(captured, roots * captured.members, limits);
    ReachedFrom(captured, roots * captured.members, k.consumer);
    hide Pruned, Validated, Reached, Mergeable;
  }

  /** What a fresh proposal binds, and what it may not change: every choice worth keeping and nothing else. */
  ghost predicate ProposalSays(form: ComponentForm, scene: Scene, attachment: Option<Use>, replacement: Option<Use>)
    reads form
  {
    && RootsAre(form.roots, scene, attachment, replacement)
    && (forall k: Key, m: Pin :: (k, m) in form.bindings.Items <==>
          SavedKeeps(scene, form.roots, attachment, replacement, k, m) || CapturedKeeps(scene, form.roots, k, m))
    && (form.capturedAddition <==> scene.captured != None && attachment != None && replacement == None)
    && (form.capturedReset <==> scene.captured != None && !form.capturedAddition)
    && (forall k: Key, m: Pin :: (k, m) in form.frozen.Items <==>
          form.capturedAddition && (k, m) in scene.captured.value.bindings.Items)
    && form.confirmed != Some(form.generation)
  }

  lemma ProposalMeans(form: ComponentForm, scene: Scene, attachment: Option<Use>, replacement: Option<Use>,
                      limits: Limits, budget: AP.Budget)
    requires Proposes(form, scene, attachment, replacement)
    requires Preparable(scene, attachment, replacement, limits, budget)
    ensures ProposalSays(form, scene, attachment, replacement)
  {
    ProposalParts(form, scene, attachment, replacement);
    ChosenAre(scene, attachment, replacement);
    hide *;
    forall k: Key, m: Pin
      ensures (k, m) in form.bindings.Items <==>
              SavedKeeps(scene, form.roots, attachment, replacement, k, m) || CapturedKeeps(scene, form.roots, k, m)
    {
      ChoiceIsKept(scene, attachment, replacement, limits, budget, k, m);
    }
    SaysAll(form, scene, attachment, replacement);
  }

  lemma ProposalParts(form: ComponentForm, scene: Scene, attachment: Option<Use>, replacement: Option<Use>)
    requires Proposes(form, scene, attachment, replacement)
    ensures form.roots == Chosen(scene, attachment, replacement)
    ensures var kept := AllKept(scene, attachment, replacement);
            form.bindings == if kept.Some? then kept.value.bindings else map[]
    ensures form.capturedAddition <==> scene.captured != None && attachment != None && replacement == None
    ensures form.capturedReset <==> scene.captured != None && !form.capturedAddition
    ensures forall k: Key, m: Pin :: (k, m) in form.frozen.Items <==>
              form.capturedAddition && (k, m) in scene.captured.value.bindings.Items
    ensures form.confirmed != Some(form.generation)
  {
    hide Chosen, AllKept, Preserves;
  }

  lemma SaysAll(form: ComponentForm, scene: Scene, attachment: Option<Use>, replacement: Option<Use>)
    requires RootsAre(form.roots, scene, attachment, replacement)
    requires forall k: Key, m: Pin :: (k, m) in form.bindings.Items <==>
      SavedKeeps(scene, form.roots, attachment, replacement, k, m) || CapturedKeeps(scene, form.roots, k, m)
    requires form.capturedAddition <==> scene.captured != None && attachment != None && replacement == None
    requires form.capturedReset <==> scene.captured != None && !form.capturedAddition
    requires forall k: Key, m: Pin :: (k, m) in form.frozen.Items <==>
      form.capturedAddition && (k, m) in scene.captured.value.bindings.Items
    requires form.confirmed != Some(form.generation)
    ensures ProposalSays(form, scene, attachment, replacement)
  {
    hide SavedKeeps, CapturedKeeps, RootsAre;
  }

  lemma ChoiceIsKept(scene: Scene, attachment: Option<Use>, replacement: Option<Use>, limits: Limits,
                     budget: AP.Budget, k: Key, m: Pin)
    requires Preparable(scene, attachment, replacement, limits, budget)
    ensures var kept, roots := AllKept(scene, attachment, replacement), Chosen(scene, attachment, replacement);
            kept.Some? && (k, m) in kept.value.bindings.Items <==>
            SavedKeeps(scene, roots, attachment, replacement, k, m) || CapturedKeeps(scene, roots, k, m)
  {
    var roots, saved := Chosen(scene, attachment, replacement), KeptSaved(scene, attachment, replacement);
    if scene.saved.Some? { SavedAre(scene, attachment, replacement, limits, k, m); }
    if scene.captured.Some? {
      CapturedAre(scene, roots, saved, limits, k, m);
      if saved.Some? { UnionKeeps(scene, roots, saved.value, limits, k, m); }
    }
    hide Chosen, KeptSaved, KeptCaptured, SavedKeeps, CapturedKeeps, Union, SavedSurvives, CapturedJoins, NoLegacy;
  }

  lemma UnionKeeps(scene: Scene, roots: set<Pin>, saved: Lock, limits: Limits, k: Key, m: Pin)
    requires CapturedJoins(scene, roots, Some(saved), limits) && scene.captured.Some?
    ensures var captured := KeptCaptured(scene, roots).value;
            (k, m) in Union(saved, captured).bindings.Items <==>
            (k, m) in saved.bindings.Items || (k, m) in captured.bindings.Items
  {
    var captured := KeptCaptured(scene, roots).value;
    assert Mergeable(saved, captured, limits);
    hide KeptCaptured, Prunable;
    UnionIs(saved, captured);
  }

  lemma NoLegacyIff(scene: Scene, replacement: Option<Use>)
    ensures NoLegacy(scene, replacement) <==> forall name: nat :: !Used(scene, replacement, Legacy(name))
  {
    if NoLegacy(scene, replacement) {
      forall name: nat ensures !Used(scene, replacement, Legacy(name)) {
        forall i, j | 0 <= i < |scene.objects| && 0 <= j < |scene.objects[i].1| && Has(scene, i, j, Legacy(name))
          ensures Some(Use(scene.objects[i].0, Legacy(name))) == replacement
        {
          assert Allowed(scene.objects[i], j, replacement);
        }
      }
    } else {
      var i, j :| 0 <= i < |scene.objects| && 0 <= j < |scene.objects[i].1|
        && !Allowed(scene.objects[i], j, replacement);
      assert Has(scene, i, j, Legacy(scene.objects[i].1[j].name));
    }
  }

  /**
   When there is a proposal: between one root and 4096, no legacy component under a full reset, and saved and captured
   choices that are locks, hold the roots still in use, fit pruned and united, and disagree nowhere.
   */
  lemma PreparableIff(scene: Scene, attachment: Option<Use>, replacement: Option<Use>, limits: Limits,
                      budget: AP.Budget)
    ensures
      var roots := Chosen(scene, attachment, replacement);
      Preparable(scene, attachment, replacement, limits, budget) <==>
      && (scene.captured != None && (attachment == None || replacement != None) ==>
            forall name: nat :: !Used(scene, replacement, Legacy(name)))
      && 1 <= |roots| <= 4096
      && (scene.saved != None && replacement != None ==>
            && Validated(scene.saved.value, limits)
              && |KeptSaved(scene, attachment, replacement).value.roots| <= limits.items
            && (forall pin :: Used(scene, replacement, Exact(pin)) ==> pin in scene.saved.value.members)
            && Fits(KeptSaved(scene, attachment, replacement).value, limits))
      && (scene.captured != None ==>
            && Validated(scene.captured.value, limits) && |KeptCaptured(scene, roots).value.roots| <= limits.items
            && Fits(KeptCaptured(scene, roots).value, limits))
      && (scene.captured != None && scene.saved != None ==>
            var saved := KeptSaved(scene, attachment, replacement).value;
            && Validated(saved, limits) && Validated(KeptCaptured(scene, roots).value, limits)
            && Agree(saved, KeptCaptured(scene, roots).value)
              && Fits(Union(saved, KeptCaptured(scene, roots).value), limits))
      && (scene.saved != None || scene.captured != None ==>
            |AllKept(scene, attachment, replacement).value.bindings| <= 4096)
      && (attachment != None && attachment.value.component in scene.schemas ==>
            AP.Loads(scene.schemas[attachment.value.component], budget))
  {
    NoLegacyIff(scene, replacement);
    SomeKept(scene, attachment, replacement);
    if scene.saved.Some? && replacement.Some? { SavedSurvivesIff(scene, attachment, replacement, limits); }
    assert scene.saved.None? || replacement.None? ==> SavedSurvives(scene, attachment, replacement, limits);
    if scene.captured.Some? { CapturedPrunableIff(scene, Chosen(scene, attachment, replacement), limits); }
    hide NoLegacy, Used, Fits, Agree, Union, AP.Loads, Validated, Prunable, SavedSurvives, Chosen;
    hide AllKept, KeptSaved;
  }

  lemma SomeKept(scene: Scene, attachment: Option<Use>, replacement: Option<Use>)
    ensures AllKept(scene, attachment, replacement).Some? <==> scene.saved != None || scene.captured != None
    ensures KeptSaved(scene, attachment, replacement).Some? <==> scene.saved != None
  {
  }

  lemma SavedSurvivesIff(scene: Scene, attachment: Option<Use>, replacement: Option<Use>, limits: Limits)
    requires scene.saved.Some? && replacement.Some?
    ensures SavedSurvives(scene, attachment, replacement, limits) <==>
            && Validated(scene.saved.value, limits)
            && |KeptSaved(scene, attachment, replacement).value.roots| <= limits.items
            && (forall pin :: Used(scene, replacement, Exact(pin)) ==> pin in scene.saved.value.members)
            && Fits(KeptSaved(scene, attachment, replacement).value, limits)
  {
    ChosenAre(scene, attachment, replacement);
    hide Validated, Fits, Used, SceneRoots, Reach, Restricted;
  }

  lemma CapturedPrunableIff(scene: Scene, roots: set<Pin>, limits: Limits)
    requires scene.captured.Some?
    ensures Prunable(scene.captured.value, roots * scene.captured.value.members, limits) <==>
            && Validated(scene.captured.value, limits) && |KeptCaptured(scene, roots).value.roots| <= limits.items
            && Fits(KeptCaptured(scene, roots).value, limits)
  {
    hide Validated, Fits, Reach, Restricted;
  }

  /** The first object of that name, and none if there is no such object. */
  lemma {:induction false} ObjectIs(objects: seq<(ObjectId, seq<Component>)>, id: ObjectId)
    ensures ObjectOf(objects, id).None? <==> forall i :: 0 <= i < |objects| ==> objects[i].0 != id
    ensures ObjectOf(objects, id).Some? ==>
              exists i :: 0 <= i < |objects| && objects[i] == (id, ObjectOf(objects, id).value)
                          && forall j :: 0 <= j < i ==> objects[j].0 != id
  {
    if objects != [] {
      ObjectIs(objects[1..], id);
      if objects[0].0 == id {
        assert objects[0] == (id, objects[0].1);
      } else if ObjectOf(objects, id).Some? {
        var i :| 0 <= i < |objects| - 1 && objects[1..][i] == (id, ObjectOf(objects, id).value)
          && forall j :: 0 <= j < i ==> objects[1..][j].0 != id;
        assert objects[i + 1] == (id, ObjectOf(objects, id).value);
        assert forall j :: 0 < j < i + 1 ==> objects[j] == objects[1..][j - 1];
      } else {
        assert forall j :: 0 < j < |objects| ==> objects[j] == objects[1..][j - 1];
      }
    }
  }
}
