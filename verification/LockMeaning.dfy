/**
 Which graphs of provider choices are locks, and what pruning and merging them give
 (crates/orishu-plugin/src/authoring_lock.rs:220-300, authoring_lock/composition.rs:34-150), in terms of walks along
 their bindings.
 */
module LockMeaning {
  import opened Aggregates
  import opened ProviderLock
  import opened LockComposition

  /** Some slot of one member is bound to the other. */
  ghost predicate Bound(bindings: Bindings, a: Pin, b: Pin) {
    exists k :: k in bindings && k.consumer == a && bindings[k] == b
  }

  /** A walk follows one binding after another. */
  ghost predicate Walk(bindings: Bindings, w: seq<Pin>) {
    w != [] && forall i :: 0 < i < |w| ==> Bound(bindings, w[i - 1], w[i])
  }

  ghost predicate Leads(bindings: Bindings, roots: set<Pin>, w: seq<Pin>, m: Pin) {
    Walk(bindings, w) && w[0] in roots && w[|w| - 1] == m
  }

  ghost predicate Reached(bindings: Bindings, roots: set<Pin>, m: Pin) { exists w :: Leads(bindings, roots, w, m) }

  /** No walk from a member visits more than `depth` of them, so none visits one twice. */
  ghost predicate Shallow(l: Lock, depth: nat) {
    forall w :: Walk(l.bindings, w) && w[0] in l.members ==> |w| <= depth
  }

  lemma {:induction false} WalksStay(bindings: Bindings, s: set<Pin>, w: seq<Pin>)
    requires Walk(bindings, w) && Closed(bindings, s) && w[0] in s
    ensures w[|w| - 1] in s
  {
    if |w| > 1 {
      var n := |w| - 1;
      assert Bound(bindings, w[n - 1], w[n]);
      WalksStay(bindings, s, w[..n]);
    }
  }

  lemma {:induction false} WalksDescend(l: Lock, h: map<Pin, nat>, depth: nat, w: seq<Pin>)
    requires Heights(l.members, l.bindings, h, depth) && Walk(l.bindings, w) && w[0] in l.members
    requires Endpoints(l)
    ensures w[|w| - 1] in l.members && |w| <= depth && h[w[|w| - 1]] + |w| - 1 <= h[w[0]]
  {
    if |w| > 1 {
      var n := |w| - 1;
      assert Bound(l.bindings, w[n - 1], w[n]);
      WalksDescend(l, h, depth, w[..n]);
    }
  }

  ghost predicate Endpoints(l: Lock) {
    l.roots <= l.members && forall k :: k in l.bindings ==> k.consumer in l.members && l.bindings[k] in l.members
  }

  /** A walk may be taken one binding further. */
  lemma Further(bindings: Bindings, roots: set<Pin>, m: Pin, k: Key)
    requires Reached(bindings, roots, m) && k in bindings && k.consumer == m
    ensures Reached(bindings, roots, bindings[k])
  {
    var w :| Leads(bindings, roots, w, m);
    assert Bound(bindings, m, bindings[k]);
    assert Leads(bindings, roots, w + [bindings[k]], bindings[k]);
  }

  /** The members that lie in every closed set around the roots are those that a walk from a root leads to. */
  lemma ReachedIff(bindings: Bindings, roots: set<Pin>, members: set<Pin>, m: Pin)
    requires roots <= members && Closed(bindings, members) && m in members
    ensures InEveryClosed(bindings, roots, m) <==> Reached(bindings, roots, m)
  {
    if Reached(bindings, roots, m) {
      var w :| Leads(bindings, roots, w, m);
      forall s: set<Pin> | roots <= s && Closed(bindings, s) ensures m in s { WalksStay(bindings, s, w); }
    } else {
      var s := set n | n in members && Reached(bindings, roots, n);
      forall r | r in roots ensures r in s { assert Leads(bindings, roots, [r], r); }
      forall k | k in bindings && k.consumer in s ensures bindings[k] in s { Further(bindings, roots, k.consumer, k); }
      assert Closed(bindings, s) && m !in s;
    }
  }

  // ---- Heights from walks ----

  ghost predicate Departs(bindings: Bindings, w: seq<Pin>, m: Pin, n: nat) {
    Walk(bindings, w) && w[0] == m && |w| == n
  }

  /** The most members, up to a bound, that a walk from this one visits. */
  ghost function Longest(bindings: Bindings, m: Pin, bound: nat): nat {
    if bound == 0 then 0
    else if exists w :: Departs(bindings, w, m, bound) then bound
    else Longest(bindings, m, bound - 1)
  }

  lemma {:induction false} LongestIs(bindings: Bindings, m: Pin, bound: nat, w: seq<Pin>)
    requires Departs(bindings, w, m, |w|) && |w| <= bound
    ensures |w| <= Longest(bindings, m, bound) <= bound
    ensures exists longest :: Departs(bindings, longest, m, Longest(bindings, m, bound))
  {
    if exists v :: Departs(bindings, v, m, bound) {
    } else {
      assert |w| != bound;
      LongestIs(bindings, m, bound - 1, w);
    }
  }

  ghost function LongestFrom(l: Lock, depth: nat): map<Pin, nat> {
    map m | m in l.members :: Longest(l.bindings, m, depth)
  }

  lemma WalksGiveHeights(l: Lock, depth: nat)
    requires Endpoints(l) && Shallow(l, depth)
    ensures Heights(l.members, l.bindings, LongestFrom(l, depth), depth)
  {
    var h := LongestFrom(l, depth);
    hide Longest;
    forall m | m in l.members
      ensures 1 <= h[m] <= depth
      ensures exists longest :: Departs(l.bindings, longest, m, Longest(l.bindings, m, depth))
    {
      assert Walk(l.bindings, [m]) && [m][0] in l.members;
      LongestIs(l.bindings, m, depth, [m]);
    }
    forall k | k in l.bindings
      ensures k.consumer in h && l.bindings[k] in h && h[l.bindings[k]] < h[k.consumer]
    {
      var m := l.bindings[k];
      var w :| Departs(l.bindings, w, m, Longest(l.bindings, m, depth));
      assert Bound(l.bindings, k.consumer, m);
      var v := [k.consumer] + w;
      forall i | 0 < i < |v| ensures Bound(l.bindings, v[i - 1], v[i]) {
        if i > 1 { assert Bound(l.bindings, w[i - 1 - 1], w[i - 1]); }
      }
      assert Walk(l.bindings, v) && v[0] in l.members;
      LongestIs(l.bindings, k.consumer, depth, v);
    }
  }

  // ---- Locks ----

  /** A graph is what its walks make it: closed, reached from its roots throughout, and shallow. */
  ghost predicate Walkable(l: Lock, depth: nat) {
    && Endpoints(l) && Shallow(l, depth)
    && forall m :: m in l.members ==> Reached(l.bindings, l.roots, m)
  }

  lemma SpannedIff(l: Lock)
    requires Endpoints(l)
    ensures Spanned(l.roots, l.members, l.bindings) <==>
            forall m :: m in l.members ==> Reached(l.bindings, l.roots, m)
  {
    forall m | m in l.members
      ensures InEveryClosed(l.bindings, l.roots, m) <==> Reached(l.bindings, l.roots, m)
    {
      ReachedIff(l.bindings, l.roots, l.members, m);
    }
    hide Reached, Closed;
    if forall m :: m in l.members ==> Reached(l.bindings, l.roots, m) {
      forall s: set<Pin>, m | l.roots <= s && Closed(l.bindings, s) && m in l.members ensures m in s {
        assert InEveryClosed(l.bindings, l.roots, m);
      }
    }
    if Spanned(l.roots, l.members, l.bindings) {
      forall m | m in l.members ensures InEveryClosed(l.bindings, l.roots, m) { }
    }
  }

  lemma GraphIff(l: Lock, depth: nat)
    ensures Graph(l, depth) <==> Walkable(l, depth)
  {
    if Endpoints(l) {
      SpannedIff(l);
      if h :| Heights(l.members, l.bindings, h, depth) {
        forall w | Walk(l.bindings, w) && w[0] in l.members ensures |w| <= depth { WalksDescend(l, h, depth, w); }
      }
      if Shallow(l, depth) { WalksGiveHeights(l, depth); }
    }
    hide Spanned, Reached, Shallow, Heights;
  }

  /** What the one pass of the structural check accepts: five budgets, and a graph without long walks or strays. */
  lemma LockIff(l: Lock, limits: Limits)
    ensures Validated(l, limits) <==>
            && limits.weigh(l) <= limits.bytes
            && |l.roots| <= limits.items && |l.members| <= limits.items && |l.bindings| <= limits.items
            && |l.members| + |l.members| + |l.members| + |l.bindings| + |l.bindings| + |l.bindings| + |l.roots|
               <= limits.work
            && Endpoints(l)
            && (forall m :: m in l.members ==> Reached(l.bindings, l.roots, m))
            && (forall w :: Walk(l.bindings, w) && w[0] in l.members ==> |w| <= 64 && |w| <= limits.dependencyDepth)
  {
    GraphIff(l, limits.Depth());
    hide Graph, Endpoints, Reached, Walk;
  }

  // ---- Pruning and merging ----

  /** Pruning keeps the members a walk from a chosen root leads to, and their choices. */
  lemma PrunedIs(l: Lock, roots: set<Pin>, limits: Limits)
    requires Validated(l, limits) && roots <= l.members
    ensures var p := Pruned(l, roots);
            && p.roots == roots
            && (forall m :: m in p.members <==> Reached(l.bindings, roots, m))
            && (forall k, m :: (k, m) in p.bindings.Items <==>
                  (k, m) in l.bindings.Items && Reached(l.bindings, roots, k.consumer))
  {
    forall m ensures m in Reach(l, roots) <==> Reached(l.bindings, roots, m) {
      if m in l.members {
        ReachedIff(l.bindings, roots, l.members, m);
      } else if Reached(l.bindings, roots, m) {
        var w :| Leads(l.bindings, roots, w, m);
        WalksStay(l.bindings, l.members, w);
        assert false;
      }
    }
    hide Reach, Reached, Graph, Fits;
    assert forall k :: k in l.bindings ==> k.consumer in l.members;
  }

  /** A merge holds what either side holds and nothing else. */
  lemma UnionIs(a: Lock, b: Lock)
    requires Agree(a, b) && Endpoints(a) && Endpoints(b)
    ensures var u := Union(a, b);
            && (forall m :: m in u.roots <==> m in a.roots || m in b.roots)
            && (forall m :: m in u.members <==> m in a.members || m in b.members)
            && (forall k, m :: (k, m) in u.bindings.Items <==> (k, m) in a.bindings.Items || (k, m) in b.bindings.Items)
  {
  }

  /** Two graphs agree exactly if every consumer they share has the same choices in both. */
  lemma AgreeIff(a: Lock, b: Lock)
    requires Endpoints(a) && Endpoints(b)
    ensures Agree(a, b) <==>
            forall k: Key, m: Pin :: k.consumer in a.members * b.members ==>
              ((k, m) in a.bindings.Items <==> (k, m) in b.bindings.Items)
  {
    forall k | k in a.bindings ensures (k, a.bindings[k]) in a.bindings.Items { }
    forall k | k in b.bindings ensures (k, b.bindings[k]) in b.bindings.Items { }
  }
}
