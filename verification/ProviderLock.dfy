/**
 Provider choices as a closed, acyclic, reachable dependency graph within budgets
 (crates/orishu-plugin/src/authoring_lock.rs).
 */
module ProviderLock {
  import opened Aggregates

  type Pin = nat

  /** One dependency slot of one exact consumer. */
  datatype Key = Key(consumer: Pin, slot: nat)

  type Bindings = map<Key, Pin>

  datatype Lock = Lock(roots: set<Pin>, members: set<Pin>, bindings: Bindings)

  const MAX_DEPTH := 64

  /** Budgets; the canonical encoding is only weighed, by a function of the graph. */
  datatype Limits = Limits(bytes: nat, items: nat, work: nat, dependencyDepth: nat, weigh: Lock -> nat)
  {
    function Depth(): nat { Min(dependencyDepth, MAX_DEPTH) }
  }

  predicate Fits(l: Lock, limits: Limits) {
    && limits.weigh(l) <= limits.bytes
    && |l.roots| <= limits.items && |l.members| <= limits.items && |l.bindings| <= limits.items
    && 3 * (|l.members| + |l.bindings|) + |l.roots| <= limits.work
  }

  predicate Closed(bindings: Bindings, s: set<Pin>) {
    forall k :: k in bindings && k.consumer in s ==> bindings[k] in s
  }

  /** Every member is reachable: it lies in each closed set holding the roots. */
  ghost predicate Spanned(roots: set<Pin>, members: set<Pin>, bindings: Bindings) {
    forall s: set<Pin> :: roots <= s && Closed(bindings, s) ==> members <= s
  }

  /** Heights falling along every binding: no cycle, and no path of more than `depth` members. */
  ghost predicate Heights(members: set<Pin>, bindings: Bindings, h: map<Pin, nat>, depth: nat) {
    && (forall m :: m in members ==> m in h && 1 <= h[m] <= depth)
    && (forall k :: k in bindings ==> k.consumer in h && bindings[k] in h && h[bindings[k]] < h[k.consumer])
  }

  ghost predicate Graph(l: Lock, depth: nat) {
    && l.roots <= l.members
    && (forall k :: k in l.bindings ==> k.consumer in l.members && l.bindings[k] in l.members)
    && Spanned(l.roots, l.members, l.bindings)
    && exists h :: Heights(l.members, l.bindings, h, depth)
  }

  /** What every validated lock is under the receiving budgets. */
  ghost predicate Validated(l: Lock, limits: Limits) { Fits(l, limits) && Graph(l, limits.Depth()) }

  lemma DeeperIsFine(l: Lock, depth: nat, deeper: nat)
    requires Graph(l, depth) && depth <= deeper
    ensures Graph(l, deeper)
  {
    var h :| Heights(l.members, l.bindings, h, depth);
    assert Heights(l.members, l.bindings, h, deeper);
  }

  /** The members of a set, each listed once. */
  method Listed(s: set<Pin>) returns (r: seq<Pin>)
    ensures Distinct(r) && |r| == |s| && forall m :: m in r <==> m in s
  {
    r := [];
    var rest := s;
    while rest != {}
      invariant rest <= s && |r| + |rest| == |s| && forall m :: m in r <==> m in s - rest
      invariant Distinct(r)
      decreases rest
    {
      var m :| m in rest;
      DistinctSnoc(r, m);
      r, rest := r + [m], rest - {m};
    }
  }
}
