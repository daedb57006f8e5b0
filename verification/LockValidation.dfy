/**
 The structural check of a lock (crates/orishu-plugin/src/authoring_lock.rs, validate): budgets, endpoints, then one
 pass in dependency order that finds cycles, overlong paths and unreachable members together.
 */
module LockValidation {
  import opened Aggregates
  import opened ProviderLock

  predicate EndpointsInside(l: Lock) {
    l.roots <= l.members && forall k :: k in l.bindings ==> k.consumer in l.members && l.bindings[k] in l.members
  }

  /** Levels count the longest path found so far from a root; zero means none was found. */
  type Levels = map<Pin, nat>

  /** The bindings into a member that have not been followed yet. */
  function Incoming(l: Lock, open: set<Key>, m: Pin): set<Key> {
    set k | k in l.bindings && k in open && l.bindings[k] == m
  }

  /** A member is ready exactly when no binding into it is open, and is listed once. */
  ghost predicate Readied(l: Lock, open: set<Key>, incoming: map<Pin, nat>, ready: seq<Pin>) {
    Counted(l, open, incoming) && Queued(incoming, ready) && Distinct(ready)
  }

  ghost predicate Counted(l: Lock, open: set<Key>, incoming: map<Pin, nat>) {
    incoming.Keys == l.members && forall m :: m in incoming ==> incoming[m] == |Incoming(l, open, m)|
  }

  ghost predicate Queued(incoming: map<Pin, nat>, ready: seq<Pin>) {
    forall m :: m in ready <==> m in incoming && incoming[m] == 0
  }

  /** Every followed binding out of a reached member has raised its provider above it. */
  ghost predicate Raised(l: Lock, open: set<Key>, level: Levels) {
    && level.Keys == l.members
    && forall k :: k in l.bindings && k !in open && k.consumer in level && level[k.consumer] > 0 ==>
      l.bindings[k] in level && level[l.bindings[k]] > level[k.consumer]
  }

  ghost predicate Reachable(l: Lock, m: Pin) {
    forall s: set<Pin> :: l.roots <= s && Closed(l.bindings, s) ==> m in s
  }

  /** Levels never overstate: a reached member is reachable, and leaves room for any valid heights below it. */
  ghost predicate Honest(l: Lock, level: Levels, depth: nat) {
    && level.Keys == l.members
    && (forall r :: r in l.roots ==> r in level && level[r] > 0)
    && (forall m :: m in level && level[m] > 0 ==> Reachable(l, m))
    && forall h :: Heights(l.members, l.bindings, h, depth) ==> forall m :: m in level ==> level[m] + h[m] <= depth + 1
  }

  /** Open bindings are those out of members not taken yet, and those still to be followed. */
  ghost predicate OpenFrom(l: Lock, open: set<Key>, taken: seq<Pin>, rest: set<Key>) {
    open <= l.bindings.Keys && forall k :: k in l.bindings ==> (k in open <==> k.consumer !in taken || k in rest)
  }

  ghost predicate Bounded(level: Levels, taken: seq<Pin>, depth: nat) {
    forall m :: m in taken ==> m in level && level[m] <= depth
  }

  /** Accepts exactly budgeted graphs: closed, spanned by their roots, acyclic and no deeper than allowed. */
  method Validate(l: Lock, limits: Limits) returns (ok: bool)
    ensures ok <==> Validated(l, limits)
  {
    if !Fits(l, limits) || !EndpointsInside(l) { return false; }
    var level: Levels := map m | m in l.members :: if m in l.roots then 1 else 0;
    var incoming: map<Pin, nat> := map m | m in l.members :: |Incoming(l, l.bindings.Keys, m)|;
    var ready := Listed(set m | m in l.members && incoming[m] == 0);
    Begun(l, limits.Depth(), level, incoming, ready);
    hide *;
    ok := Traverse(l, limits, level, incoming, ready);
  }

  /** One pass in dependency order; it stops early at an overlong path and never reaches a cycle. */
  method Traverse(l: Lock, limits: Limits, level0: Levels, incoming0: map<Pin, nat>, ready0: seq<Pin>)
    returns (ok: bool)
    requires Fits(l, limits) && EndpointsInside(l) && Readied(l, l.bindings.Keys, incoming0, ready0)
    requires Traversed(l, limits.Depth(), level0, l.bindings.Keys, [])
    ensures ok <==> Validated(l, limits)
  {
    hide *;
    var level: Levels, incoming: map<Pin, nat>, ready := level0, incoming0, ready0;
    var cursor := 0;
    ghost var open := l.bindings.Keys;
    while cursor < |ready|
      invariant cursor <= |ready| && Readied(l, open, incoming, ready)
      invariant Traversed(l, limits.Depth(), level, open, ready[..cursor])
      decreases |l.members| - cursor
    {
      var from := ready[cursor];
      Room(l, open, incoming, level, limits.Depth(), ready, cursor);
      if level[from] > limits.Depth() {
        TooDeep(l, open, level, limits, ready[..cursor], from);
        return false;
      }
      level, incoming, ready, open := Follow(l, limits.Depth(), level, incoming, ready, open, cursor);
      cursor := cursor + 1;
    }
    assert ready[..cursor] == ready;
    if |ready| != |l.members| {
      Cyclic(l, open, incoming, level, ready, limits);
      return false;
    }
    AllReady(l, open, incoming, level, limits.Depth(), ready);
    ok := forall m :: m in l.members ==> level[m] != 0;
    Settled(l, open, level, ready, limits);
  }

  /** The state of the pass between two members taken from the list. */
  ghost predicate Traversed(l: Lock, depth: nat, level: Levels, open: set<Key>, taken: seq<Pin>) {
    && Raised(l, open, level) && Honest(l, level, depth) && OpenFrom(l, open, taken, {}) && Bounded(level, taken, depth)
  }

  lemma Begun(l: Lock, depth: nat, level: Levels, incoming: map<Pin, nat>, ready: seq<Pin>)
    requires EndpointsInside(l) && level == map m | m in l.members :: if m in l.roots then 1 else 0
    requires incoming == map m | m in l.members :: |Incoming(l, l.bindings.Keys, m)|
    requires Distinct(ready) && forall m :: m in ready <==> m in l.members && incoming[m] == 0
    ensures Readied(l, l.bindings.Keys, incoming, ready)
    ensures Traversed(l, depth, level, l.bindings.Keys, [])
  {
    forall h, m | Heights(l.members, l.bindings, h, depth) && m in level ensures level[m] + h[m] <= depth + 1 { }
  }

  ghost function Items(s: seq<Pin>): set<Pin> { set m | m in s }

  lemma DistinctSize(s: seq<Pin>)
    requires Distinct(s)
    ensures |Items(s)| == |s|
  {
    if s == [] {
    } else {
      var n := |s| - 1;
      var front, last := s[..n], s[n];
      assert s == front + [last];
      DistinctSnoc(front, last);
      DistinctSize(front);
      hide Distinct;
      assert Items(s) == Items(front) + {last} && last !in Items(front);
    }
  }

  lemma Room(l: Lock, open: set<Key>, incoming: map<Pin, nat>, level: Levels, depth: nat, ready: seq<Pin>, cursor: nat)
    requires Readied(l, open, incoming, ready) && cursor < |ready|
    requires Traversed(l, depth, level, open, ready[..cursor])
    ensures |ready| <= |l.members| && ready[cursor] in l.members && ready[cursor] in level
  {
    hide Incoming, Honest, OpenFrom, Bounded;
    assert ready[cursor] in ready;
    DistinctSize(ready);
    hide Distinct;
    Subset(Items(ready), l.members);
  }

  /** Following the bindings of one ready member: its providers rise above it and may become ready. */
  method Follow(l: Lock, ghost depth: nat, level0: Levels, incoming0: map<Pin, nat>, ready0: seq<Pin>,
                ghost open0: set<Key>, cursor: nat)
    returns (level: Levels, incoming: map<Pin, nat>, ready: seq<Pin>, ghost open: set<Key>)
    requires EndpointsInside(l) && Readied(l, open0, incoming0, ready0) && cursor < |ready0|
    requires Traversed(l, depth, level0, open0, ready0[..cursor])
    requires ready0[cursor] in level0 && level0[ready0[cursor]] <= depth
    ensures cursor < |ready| && Readied(l, open, incoming, ready)
    ensures Traversed(l, depth, level, open, ready[..cursor + 1])
  {
    hide Honest, OpenFrom, Raised, Bounded, Readied, EndpointsInside;
    level, incoming, ready, open := level0, incoming0, ready0, open0;
    var from := ready0[cursor];
    ghost var taken := ready0[..cursor + 1];
    var rest := set k | k in l.bindings && k.consumer == from;
    Taking(l, open0, incoming0, level0, ready0, cursor, depth, rest);
    while rest != {}
      invariant cursor < |ready| && ready[..cursor + 1] == taken
      invariant forall k :: k in rest ==> k in l.bindings && k.consumer == from
      invariant Readied(l, open, incoming, ready) && OpenFrom(l, open, taken, rest)
      invariant Raised(l, open, level) && Honest(l, level, depth) && Bounded(level, taken, depth)
      decreases rest
    {
      var k :| k in rest;
      assert from == taken[cursor] && forall m :: m in taken ==> m in ready;
      var to := l.bindings[k];
      OpenStep(l, open, taken, rest, k);
      ReadyStep(l, open, incoming, ready, k);
      LevelStep(l, open, level, taken, rest, depth, k);
      if level[from] > 0 { level := level[to := Max(level[to], level[from] + 1)]; }
      incoming := incoming[to := incoming[to] - 1];
      if incoming[to] == 0 { ready := ready + [to]; }
      open, rest := open - {k}, rest - {k};
    }
  }

  lemma Taking(l: Lock, open: set<Key>, incoming: map<Pin, nat>, level: Levels, ready: seq<Pin>, cursor: nat,
               depth: nat,
               rest: set<Key>)
    requires cursor < |ready| && OpenFrom(l, open, ready[..cursor], {}) && Bounded(level, ready[..cursor], depth)
    requires ready[cursor] in level && level[ready[cursor]] <= depth && Readied(l, open, incoming, ready)
    requires rest == set k | k in l.bindings && k.consumer == ready[cursor]
    ensures OpenFrom(l, open, ready[..cursor + 1], rest) && Bounded(level, ready[..cursor + 1], depth)
  {
    assert ready[..cursor + 1] == ready[..cursor] + [ready[cursor]];
  }

  lemma OpenStep(l: Lock, open: set<Key>, taken: seq<Pin>, rest: set<Key>, k: Key)
    requires OpenFrom(l, open, taken, rest) && k in l.bindings && k in rest && k.consumer in taken
    ensures k in open && OpenFrom(l, open - {k}, taken, rest - {k})
  {
  }

  lemma Followed(l: Lock, open: set<Key>, k: Key, m: Pin)
    requires k in l.bindings && k in open
    ensures |Incoming(l, open - {k}, m)| == |Incoming(l, open, m)| - if m == l.bindings[k] then 1 else 0
    ensures l.bindings[k] == m ==> |Incoming(l, open, m)| > 0
  {
    if m == l.bindings[k] {
      assert k in Incoming(l, open, m) && Incoming(l, open - {k}, m) == Incoming(l, open, m) - {k};
    } else {
      assert Incoming(l, open - {k}, m) == Incoming(l, open, m);
    }
  }

  lemma CountStep(l: Lock, open: set<Key>, incoming: map<Pin, nat>, k: Key)
    requires Counted(l, open, incoming) && k in l.bindings && k in open && l.bindings[k] in l.members
    ensures incoming[l.bindings[k]] > 0
    ensures Counted(l, open - {k}, incoming[l.bindings[k] := incoming[l.bindings[k]] - 1])
  {
    var to := l.bindings[k];
    Followed(l, open, k, to);
    var left := incoming[to := incoming[to] - 1];
    forall m | m in left ensures left[m] == |Incoming(l, open - {k}, m)| { Followed(l, open, k, m); }
  }

  lemma QueueStep(incoming: map<Pin, nat>, ready: seq<Pin>, to: Pin)
    requires Queued(incoming, ready) && to in incoming && incoming[to] > 0
    ensures to !in ready
    ensures var left := incoming[to := incoming[to] - 1]; Queued(left, if left[to] == 0 then ready + [to] else ready)
  {
  }

  lemma ReadyStep(l: Lock, open: set<Key>, incoming: map<Pin, nat>, ready: seq<Pin>, k: Key)
    requires EndpointsInside(l) && Readied(l, open, incoming, ready) && k in l.bindings && k in open
    ensures l.bindings[k] in incoming && incoming[l.bindings[k]] > 0 && l.bindings[k] !in ready
    ensures var left := incoming[l.bindings[k] := incoming[l.bindings[k]] - 1];
      Readied(l, open - {k}, left, if left[l.bindings[k]] == 0 then ready + [l.bindings[k]] else ready)
  {
    var to := l.bindings[k];
    CountStep(l, open, incoming, k);
    QueueStep(incoming, ready, to);
    DistinctSnoc(ready, to);
    hide Counted, Queued, Distinct;
  }

  lemma LevelStep(l: Lock, open: set<Key>, level: Levels, taken: seq<Pin>, rest: set<Key>, depth: nat, k: Key)
    requires EndpointsInside(l) && OpenFrom(l, open, taken, rest) && k in l.bindings && k in rest
    requires k.consumer in taken && l.bindings[k] !in taken
    requires Raised(l, open, level) && Honest(l, level, depth) && Bounded(level, taken, depth)
    ensures k.consumer in level && l.bindings[k] in level
    ensures var raised := if level[k.consumer] > 0
        then level[l.bindings[k] := Max(level[l.bindings[k]], level[k.consumer] + 1)] else level;
      Raised(l, open - {k}, raised) && Honest(l, raised, depth) && Bounded(raised, taken, depth)
  {
    var to := l.bindings[k];
    if level[k.consumer] > 0 {
      var raised := level[to := Max(level[to], level[k.consumer] + 1)];
      assert Reachable(l, to) by { assert Reachable(l, k.consumer); }
      HonestStep(l, level, depth, k);
      hide Honest, Reachable;
      assert Raised(l, open - {k}, raised);
    }
  }

  lemma HonestStep(l: Lock, level: Levels, depth: nat, k: Key)
    requires EndpointsInside(l) && Honest(l, level, depth) && k in l.bindings && level[k.consumer] > 0
    requires Reachable(l, l.bindings[k])
    ensures Honest(l, level[l.bindings[k] := Max(level[l.bindings[k]], level[k.consumer] + 1)], depth)
  {
    hide Reachable;
  }

  lemma TooDeep(l: Lock, open: set<Key>, level: Levels, limits: Limits, taken: seq<Pin>, m: Pin)
    requires Traversed(l, limits.Depth(), level, open, taken) && m in level && level[m] > limits.Depth()
    ensures !Validated(l, limits)
  {
    hide Spanned, Reachable, Fits, Raised, OpenFrom, Bounded;
  }

  /** A member never ready has an open binding into it, out of another such member above it. */
  lemma Climb(l: Lock, open: set<Key>, incoming: map<Pin, nat>, ready: seq<Pin>, h: map<Pin, nat>, depth: nat, m: Pin)
    requires Readied(l, open, incoming, ready) && OpenFrom(l, open, ready, {})
    requires EndpointsInside(l) && Heights(l.members, l.bindings, h, depth) && m in l.members
    ensures m in ready
    decreases depth - h[m]
  {
    hide Distinct;
    if m in ready {
    } else {
      var k :| k in Incoming(l, open, m);
      Climb(l, open, incoming, ready, h, depth, k.consumer);
      assert false;
    }
  }

  lemma Cyclic(l: Lock, open: set<Key>, incoming: map<Pin, nat>, level: Levels, ready: seq<Pin>, limits: Limits)
    requires EndpointsInside(l) && Readied(l, open, incoming, ready)
    requires Traversed(l, limits.Depth(), level, open, ready) && |ready| != |l.members|
    ensures !Validated(l, limits)
  {
    var m := Missed(l, open, incoming, ready);
    hide Raised, Honest, Bounded;
    hide Limits.Depth, Fits, Readied, OpenFrom, EndpointsInside, Spanned;
    if h :| Heights(l.members, l.bindings, h, limits.Depth()) {
      Climb(l, open, incoming, ready, h, limits.Depth(), m);
      assert false;
    }
  }

  lemma Missed(l: Lock, open: set<Key>, incoming: map<Pin, nat>, ready: seq<Pin>) returns (m: Pin)
    requires Readied(l, open, incoming, ready) && |ready| != |l.members|
    ensures m in l.members && m !in ready
  {
    DistinctSize(ready);
    hide Incoming, Distinct;
    assert Items(ready) <= l.members;
    assert l.members - Items(ready) != {};
    m :| m in l.members - Items(ready);
  }

  lemma AllReady(l: Lock, open: set<Key>, incoming: map<Pin, nat>, level: Levels, depth: nat, ready: seq<Pin>)
    requires Readied(l, open, incoming, ready) && |ready| == |l.members|
    requires Traversed(l, depth, level, open, ready)
    ensures forall m :: m in l.members <==> m in ready
    ensures level.Keys == l.members
  {
    DistinctSize(ready);
    hide Incoming, Distinct, Honest, OpenFrom, Bounded;
    var listed := Items(ready);
    assert l.members == listed + (l.members - listed);
    assert l.members - listed == {};
  }

  /** With every binding followed, levels measured from the bottom are heights, and reached members are closed. */
  lemma Settled(l: Lock, open: set<Key>, level: Levels, ready: seq<Pin>, limits: Limits)
    requires Fits(l, limits) && EndpointsInside(l) && Traversed(l, limits.Depth(), level, open, ready)
    requires forall m :: m in l.members <==> m in ready
    ensures (forall m :: m in l.members ==> level[m] != 0) <==> Validated(l, limits)
  {
    var depth := limits.Depth();
    hide Fits, Limits.Depth;
    if forall m :: m in l.members ==> level[m] != 0 {
      var h: map<Pin, nat> := map m | m in l.members :: depth + 1 - level[m];
      assert Heights(l.members, l.bindings, h, depth);
      assert Spanned(l.roots, l.members, l.bindings);
    } else if Validated(l, limits) {
      ReachedIsClosed(l, open, level, ready, depth);
    }
  }

  lemma ReachedIsClosed(l: Lock, open: set<Key>, level: Levels, ready: seq<Pin>, depth: nat)
    requires EndpointsInside(l) && Traversed(l, depth, level, open, ready)
    requires forall m :: m in l.members <==> m in ready
    ensures var reached := set m | m in l.members && level[m] > 0;
      l.roots <= reached && Closed(l.bindings, reached)
  {
    hide Reachable;
  }
}
