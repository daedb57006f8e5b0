/**
 Composition of provider choices (crates/orishu-plugin/src/authoring_lock/composition.rs): pruning to
 chosen roots and merging without replacement.
 */
module LockComposition {
  import opened Aggregates
  import opened ProviderLock
  import opened LockValidation

  // ---- Pruning ----

  ghost function Reach(l: Lock, roots: set<Pin>): set<Pin> {
    set m | m in l.members && InEveryClosed(l.bindings, roots, m)
  }

  ghost predicate InEveryClosed(bindings: Bindings, roots: set<Pin>, m: Pin) {
    forall s: set<Pin> :: roots <= s && Closed(bindings, s) ==> m in s
  }

  function Restricted(bindings: Bindings, s: set<Pin>): Bindings {
    map k | k in bindings && k.consumer in s :: bindings[k]
  }

  ghost function Pruned(l: Lock, roots: set<Pin>): Lock {
    Lock(roots, Reach(l, roots), Restricted(l.bindings, Reach(l, roots)))
  }

  lemma ReachIsClosed(l: Lock, roots: set<Pin>, depth: nat)
    requires Graph(l, depth) && roots <= l.members
    ensures roots <= Reach(l, roots) <= l.members && Closed(l.bindings, Reach(l, roots))
  {
  }

  lemma ReachIsLeast(l: Lock, roots: set<Pin>, s: set<Pin>)
    requires roots <= s && Closed(l.bindings, s)
    ensures Reach(l, roots) <= s
  {
  }

  /** A pruned graph is again a graph, and with no more roots only its byte weight can leave the same budgets. */
  lemma PrunedIsGraph(l: Lock, roots: set<Pin>, limits: Limits)
    requires Graph(l, limits.Depth()) && roots <= l.members
    ensures Graph(Pruned(l, roots), limits.Depth())
    ensures Fits(l, limits) && |roots| <= |l.roots| ==>
      (Fits(Pruned(l, roots), limits) <==> limits.weigh(Pruned(l, roots)) <= limits.bytes)
  {
    PrunedStaysGraph(l, roots, limits.Depth());
    PrunedIsSmaller(l, roots);
    hide Limits.Depth, Graph, Pruned;
  }

  lemma PrunedIsSmaller(l: Lock, roots: set<Pin>)
    ensures |Pruned(l, roots).members| <= |l.members| && |Pruned(l, roots).bindings| <= |l.bindings|
  {
    hide InEveryClosed;
    var p := Pruned(l, roots);
    Subset(p.members, l.members);
    Subset(p.bindings.Keys, l.bindings.Keys);
    assert |p.bindings| == |p.bindings.Keys| && |l.bindings| == |l.bindings.Keys|;
  }

  lemma PrunedStaysGraph(l: Lock, roots: set<Pin>, depth: nat)
    requires Graph(l, depth) && roots <= l.members
    ensures Graph(Pruned(l, roots), depth)
  {
    ReachIsClosed(l, roots, depth);
    var p := Pruned(l, roots);
    forall s: set<Pin> | roots <= s && Closed(p.bindings, s) ensures p.members <= s {
      RestrictionStaysClosed(l.bindings, p.members, s);
      ReachIsLeast(l, roots, s * p.members);
    }
    var h :| Heights(l.members, l.bindings, h, depth);
    assert Heights(p.members, p.bindings, h, depth);
  }

  lemma RestrictionStaysClosed(bindings: Bindings, members: set<Pin>, s: set<Pin>)
    requires Closed(bindings, members) && Closed(Restricted(bindings, members), s)
    ensures Closed(bindings, s * members)
  {
  }

  /** What the search has found so far: sound, and closed up to the cursor. */
  ghost predicate Searched(l: Lock, roots: set<Pin>, seen: set<Pin>, ready: seq<Pin>, cursor: nat) {
    && roots <= seen <= Reach(l, roots)
    && (forall m :: m in seen <==> m in ready)
    && |ready| == |seen| && cursor <= |ready|
    && forall i :: 0 <= i < cursor ==> Expanded(l.bindings, ready[i], seen)
  }

  predicate Expanded(bindings: Bindings, m: Pin, seen: set<Pin>) {
    forall k :: k in bindings && k.consumer == m ==> bindings[k] in seen
  }

  /** When pruning to chosen roots succeeds: a valid graph, roots inside it, and a result within budget. */
  ghost predicate Prunable(l: Lock, roots: set<Pin>, limits: Limits) {
    Validated(l, limits) && |roots| <= limits.items && roots <= l.members && Fits(Pruned(l, roots), limits)
  }

  /** The closure of chosen members; nothing is inferred and nothing else is kept. */
  method ForRoots(l: Lock, roots: set<Pin>, limits: Limits) returns (r: Option<Lock>)
    ensures r.Some? <==> Prunable(l, roots, limits)
    ensures r.Some? ==> r.value == Pruned(l, roots) && Validated(r.value, limits)
  {
    hide Validated, Graph, Fits, Pruned, Limits.Depth;
    var valid := Validate(l, limits);
    if !valid || |roots| > limits.items || !(roots <= l.members) { return None; }
    IsGraph(l, limits);
    PrunedIsGraph(l, roots, limits);
    var pruned := Prune(l, roots, limits.Depth());
    valid := Validate(pruned, limits);
    GraphFits(pruned, limits);
    r := if valid then Some(pruned) else None;
  }

  lemma IsGraph(l: Lock, limits: Limits)
    requires Validated(l, limits)
    ensures Graph(l, limits.Depth())
  {
  }

  lemma GraphFits(l: Lock, limits: Limits)
    requires Graph(l, limits.Depth())
    ensures Fits(l, limits) <==> Validated(l, limits)
  {
  }

  /** The members reachable from the roots, found with a work list, and their bindings. */
  method Prune(l: Lock, roots: set<Pin>, ghost depth: nat) returns (pruned: Lock)
    requires Graph(l, depth) && roots <= l.members
    ensures pruned == Pruned(l, roots)
  {
    ReachIsClosed(l, roots, depth);
    var ready := Listed(roots);
    var seen, cursor := roots, 0;
    while cursor < |ready|
      invariant Searched(l, roots, seen, ready, cursor)
      decreases |l.members| - cursor
    {
      hide Graph, Closed, Spanned;
      var m := ready[cursor];
      var targets := set k | k in l.bindings && k.consumer == m :: l.bindings[k];
      Progress(l, roots, seen, ready, cursor);
      TargetsAreReached(l, roots, m, targets, depth);
      seen, ready := Discover(l, roots, seen, ready, cursor, targets);
      cursor := cursor + 1;
    }
    SearchIsComplete(l, roots, seen, ready);
    pruned := Lock(roots, seen, Restricted(l.bindings, seen));
  }

  lemma Progress(l: Lock, roots: set<Pin>, seen: set<Pin>, ready: seq<Pin>, cursor: nat)
    requires Searched(l, roots, seen, ready, cursor) && cursor < |ready|
    ensures cursor < |l.members| && ready[cursor] in seen && ready[cursor] in Reach(l, roots)
  {
    Subset(seen, l.members);
  }

  lemma TargetsAreReached(l: Lock, roots: set<Pin>, m: Pin, targets: set<Pin>, depth: nat)
    requires Graph(l, depth) && roots <= l.members && m in Reach(l, roots)
    requires forall t :: t in targets ==> exists k :: k in l.bindings && k.consumer == m && l.bindings[k] == t
    ensures targets <= Reach(l, roots)
  {
  }

  /** Every target not seen before is queued once. */
  method Discover(ghost l: Lock, ghost roots: set<Pin>, seen0: set<Pin>, ready0: seq<Pin>, ghost cursor: nat,
                  targets: set<Pin>)
    returns (seen: set<Pin>, ready: seq<Pin>)
    requires Searched(l, roots, seen0, ready0, cursor) && cursor < |ready0| && targets <= Reach(l, roots)
    requires forall k :: k in l.bindings && k.consumer == ready0[cursor] ==> l.bindings[k] in targets
    ensures Searched(l, roots, seen, ready, cursor + 1)
  {
    hide Reach;
    seen, ready := seen0, ready0;
    var rest := targets;
    while rest != {}
      invariant Searched(l, roots, seen, ready, cursor) && cursor < |ready| && ready[cursor] == ready0[cursor]
      invariant rest <= targets <= rest + seen
      decreases rest
    {
      var t :| t in rest;
      rest := rest - {t};
      if t !in seen {
        Queued(l, roots, seen, ready, cursor, t);
        seen, ready := seen + {t}, ready + [t];
      }
    }
    assert Expanded(l.bindings, ready[cursor], seen);
  }

  lemma Queued(l: Lock, roots: set<Pin>, seen: set<Pin>, ready: seq<Pin>, cursor: nat, t: Pin)
    requires Searched(l, roots, seen, ready, cursor) && t !in seen && t in Reach(l, roots)
    ensures Searched(l, roots, seen + {t}, ready + [t], cursor)
  {
  }

  lemma SearchIsComplete(l: Lock, roots: set<Pin>, seen: set<Pin>, ready: seq<Pin>)
    requires Searched(l, roots, seen, ready, |ready|)
    ensures seen == Reach(l, roots)
  {
  }

  // ---- Merging ----

  /** A consumer known to both graphs has the same choices in both, absence included. */
  predicate Agree(a: Lock, b: Lock) {
    && (forall k :: k in a.bindings && k.consumer in b.members ==> k in b.bindings && b.bindings[k] == a.bindings[k])
    && (forall k :: k in b.bindings && k.consumer in a.members ==> k in a.bindings && a.bindings[k] == b.bindings[k])
  }

  function Union(a: Lock, b: Lock): Lock { Lock(a.roots + b.roots, a.members + b.members, a.bindings + b.bindings) }

  /** When two graphs merge: both valid, agreeing, and with a union within budget. */
  ghost predicate Mergeable(a: Lock, b: Lock, limits: Limits) {
    Validated(a, limits) && Validated(b, limits) && Agree(a, b) && Fits(Union(a, b), limits)
  }

  /** Both sides or neither: the union of two valid graphs that agree, or a refusal. */
  method Merge(a: Lock, b: Lock, limits: Limits) returns (r: Option<Lock>)
    ensures r.Some? <==> Mergeable(a, b, limits)
    ensures r.Some? ==> r.value == Union(a, b) && Validated(r.value, limits)
    ensures r.Some? ==> Pruned(r.value, a.roots) == a && Pruned(r.value, b.roots) == b
  {
    hide Validated, Graph, Fits, Agree, Union, Pruned, Limits.Depth;
    var left := Validate(a, limits);
    var right := Validate(b, limits);
    if !left || !right || !Agree(a, b) { return None; }
    IsGraph(a, limits);
    IsGraph(b, limits);
    MergeHoldsBoth(a, b, limits.Depth());
    GraphFits(Union(a, b), limits);
    var valid := Validate(Union(a, b), limits);
    r := if valid then Some(Union(a, b)) else None;
  }

  lemma UnionCommutes(a: Lock, b: Lock, depth: nat)
    requires Graph(a, depth) && Graph(b, depth) && Agree(a, b)
    ensures Union(a, b) == Union(b, a)
  {
    hide Spanned, Heights;
    assert (a.bindings + b.bindings).Keys == (b.bindings + a.bindings).Keys;
    assert a.bindings + b.bindings == b.bindings + a.bindings;
  }

  lemma ClosedInUnion(a: Lock, b: Lock, depth: nat, s: set<Pin>)
    requires Graph(a, depth) && Graph(b, depth) && Agree(a, b)
    requires Closed(Union(a, b).bindings, s)
    ensures Closed(a.bindings, s) && Closed(b.bindings, s)
  {
  }

  /** Compatible graphs always compose: only a budget can refuse their union, never a cycle, its depth or its reach. */
  lemma UnionIsGraph(a: Lock, b: Lock, depth: nat)
    requires Graph(a, depth) && Graph(b, depth) && Agree(a, b)
    ensures Graph(Union(a, b), depth)
  {
    var u := Union(a, b);
    forall s: set<Pin> | u.roots <= s && Closed(u.bindings, s) ensures u.members <= s {
      ClosedInUnion(a, b, depth, s);
    }
    var ha :| Heights(a.members, a.bindings, ha, depth);
    var hb :| Heights(b.members, b.bindings, hb, depth);
    UnionHeights(a, b, ha, hb, depth);
    hide Heights;
    assert Heights(u.members, u.bindings, Lower(a, b, ha, hb), depth);
  }

  ghost function Lower(a: Lock, b: Lock, ha: map<Pin, nat>, hb: map<Pin, nat>): map<Pin, nat>
    requires a.members <= ha.Keys && b.members <= hb.Keys
  {
    map m | m in a.members + b.members ::
      if m !in b.members then ha[m] else if m !in a.members then hb[m] else if ha[m] <= hb[m] then ha[m] else hb[m]
  }

  lemma UnionHeights(a: Lock, b: Lock, ha: map<Pin, nat>, hb: map<Pin, nat>, depth: nat)
    requires Graph(a, depth) && Graph(b, depth) && Agree(a, b)
    requires Heights(a.members, a.bindings, ha, depth) && Heights(b.members, b.bindings, hb, depth)
    ensures a.members <= ha.Keys && b.members <= hb.Keys
    ensures Heights(a.members + b.members, Union(a, b).bindings, Lower(a, b, ha, hb), depth)
  {
    hide Spanned;
    var h, u := Lower(a, b, ha, hb), Union(a, b);
    forall k | k in u.bindings ensures k.consumer in h && u.bindings[k] in h && h[u.bindings[k]] < h[k.consumer] {
      if k in b.bindings {
        assert u.bindings[k] == b.bindings[k];
      } else {
        assert k in a.bindings && u.bindings[k] == a.bindings[k];
      }
    }
  }

  /** Merging loses nothing: pruning back to either side's roots gives that side again. */
  lemma MergeHoldsFirst(a: Lock, b: Lock, depth: nat)
    requires Graph(a, depth) && Graph(b, depth) && Agree(a, b)
    ensures Pruned(Union(a, b), a.roots) == a
  {
    UnionIsGraph(a, b, depth);
    var u := Union(a, b);
    forall k | k in u.bindings && k.consumer in a.members ensures k in a.bindings && u.bindings[k] == a.bindings[k] {
      if k in b.bindings { assert a.bindings[k] == b.bindings[k]; }
    }
    assert Closed(u.bindings, a.members);
    ReachIsLeast(u, a.roots, a.members);
    ReachIsClosed(u, a.roots, depth);
    ClosedInUnion(a, b, depth, Reach(u, a.roots));
    assert Reach(u, a.roots) == a.members;
    hide Reach, Heights, Spanned;
    forall k | k in a.bindings ensures k in u.bindings && k.consumer in a.members { }
    assert Restricted(u.bindings, a.members).Keys == a.bindings.Keys;
    assert Restricted(u.bindings, a.members) == a.bindings;
  }

  lemma MergeHoldsBoth(a: Lock, b: Lock, depth: nat)
    requires Graph(a, depth) && Graph(b, depth) && Agree(a, b)
    ensures Graph(Union(a, b), depth) && Pruned(Union(a, b), a.roots) == a && Pruned(Union(a, b), b.roots) == b
  {
    assert Agree(b, a);
    hide *;
    UnionIsGraph(a, b, depth);
    MergeHoldsFirst(a, b, depth);
    MergeHoldsFirst(b, a, depth);
    UnionCommutes(a, b, depth);
  }

  /** The conflict test is exact: two graphs agree iff some graph holds both, each recoverable by pruning. */
  lemma AgreementIsExact(a: Lock, b: Lock, depth: nat)
    requires Graph(a, depth) && Graph(b, depth)
    ensures Agree(a, b) <==> exists c :: Graph(c, depth) && Pruned(c, a.roots) == a && Pruned(c, b.roots) == b
  {
    if Agree(a, b) {
      MergeHoldsBoth(a, b, depth);
      hide Graph, Pruned, Union;
      var c := Union(a, b);
      assert Graph(c, depth) && Pruned(c, a.roots) == a && Pruned(c, b.roots) == b;
    } else if c :| Graph(c, depth) && Pruned(c, a.roots) == a && Pruned(c, b.roots) == b {
      BothPruned(a, b, c);
    }
  }

  lemma BothPruned(a: Lock, b: Lock, c: Lock)
    requires Pruned(c, a.roots) == a && Pruned(c, b.roots) == b
    ensures Agree(a, b)
  {
  }
}
