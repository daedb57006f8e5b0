/**
 Causal receipts of a three-worker formation (correlate in scripts/worker_formation_receipts.py):
 received trace spans against each worker's own operation log.
 */
module Correlate {
  import opened Aggregates

  datatype Name = ClientRequest | PeerExchange | Admission | Lifecycle(kind: nat)

  datatype Outcome = Completed | Rejected | Failed | Cancelled

  datatype Key = Key(trace: nat, span: nat)

  datatype Record = Record(event: Name, key: Key, nanos: nat, outcome: Outcome)

  /** A received span; a missing or empty parent is None. */
  datatype Span = Span(key: Key, name: Name, parent: Option<nat>, end: nat, outcome: Outcome)

  type Logs = seq<seq<Record>>

  predicate Operation(r: Record) { !r.event.Lifecycle? }

  predicate Match(s: Span, r: Record) {
    && s.key == r.key && s.name == r.event && s.end == r.nanos
    && s.outcome == r.outcome
  }

  // ---- What acceptance means ----

  /** No two logged operations, of any worker, share an identity. */
  ghost predicate LogsDistinct(logs: Logs) {
    forall a, i, b, j :: InLogs(logs, a, i) && InLogs(logs, b, j) && logs[a][i].key == logs[b][j].key ==>
      a == b && i == j
  }

  ghost predicate InLogs(logs: Logs, a: int, i: int) {
    0 <= a < |logs| && 0 <= i < |logs[a]| && Operation(logs[a][i])
  }

  ghost predicate SpansDistinct(spans: seq<Span>) {
    forall i, j :: 0 <= i < j < |spans| ==> spans[i].key != spans[j].key
  }

  ghost predicate Logged(logs: Logs, role: int, r: Record) { 0 <= role < |logs| && r in logs[role] && Operation(r) }

  ghost predicate Owns(logs: Logs, role: int, key: Key) { exists r :: Logged(logs, role, r) && r.key == key }

  ghost predicate Explained(logs: Logs, s: Span) { exists role, r :: Logged(logs, role, r) && Match(s, r) }

  ghost predicate Received(spans: seq<Span>, key: Key) { exists s :: s in spans && s.key == key }

  ghost function Named(spans: seq<Span>, name: Name): set<Span> { set s | s in spans && s.name == name }

  /** One worker's only peer exchange, under its own parentless client request, above one admission at the target. */
  ghost predicate Links(spans: seq<Span>, logs: Logs, source: nat, target: nat, root: Span, peer: Span, child: Span) {
    && peer in spans && peer.name.PeerExchange? && Owns(logs, source, peer.key)
    && (forall q :: q in spans && q.name.PeerExchange? && Owns(logs, source, q.key) ==> q == peer)
    && root in spans && peer.parent.Some? && root.key == Key(peer.key.trace, peer.parent.value)
    && Owns(logs, source, root.key) && root.name.ClientRequest? && root.parent.None?
    && child in spans && Under(child, peer) && Owns(logs, target, child.key)
    && (forall q :: q in spans && Under(q, peer) ==> q == child)
    && root.outcome.Completed? && peer.outcome.Completed? && child.outcome.Completed?
  }

  predicate Under(s: Span, peer: Span) {
    && s.name.Admission? && s.key.trace == peer.key.trace
    && s.parent == Some(peer.key.span)
  }

  ghost predicate Chain(spans: seq<Span>, logs: Logs, source: nat, target: nat) {
    exists root, peer, child :: Links(spans, logs, source, target, root, peer, child)
  }

  ghost predicate Acceptable(spans: seq<Span>, logs: Logs) {
    && |logs| == 3 && LogsDistinct(logs) && SpansDistinct(spans)
    && (forall s :: s in spans ==> Explained(logs, s))
    && (forall role, r :: Logged(logs, role, r) ==> Received(spans, r.key))
    && |Named(spans, PeerExchange)| == 2 && |Named(spans, Admission)| == 2
    && Chain(spans, logs, 1, 0) && Chain(spans, logs, 2, 1)
  }

  // ---- The check ----

  /** The index of the first `role` logs and the first `i` records of the next. */
  ghost predicate Indexed(logs: Logs, role: int, i: int, index: map<Key, (nat, Record)>) {
    && (forall a, j :: InLogs(logs, a, j) && Before(a, j, role, i) ==>
          logs[a][j].key in index && index[logs[a][j].key] == (a, logs[a][j]))
    && (forall k :: k in index ==> exists a, j ::
          InLogs(logs, a, j) && Before(a, j, role, i) && index[k] == (a, logs[a][j]) && logs[a][j].key == k)
    && (forall a, j, b, k | InLogs(logs, a, j) && InLogs(logs, b, k) && logs[a][j].key == logs[b][k].key ::
          Before(a, j, role, i) && Before(b, k, role, i) ==> a == b && j == k)
  }

  predicate Before(a: int, j: int, role: int, i: int) { a < role || (a == role && j < i) }

  /** Every logged operation under its identity, with the worker whose log it was in. */
  ghost predicate Indexes(logs: Logs, index: map<Key, (nat, Record)>) {
    && (forall role, r :: Logged(logs, role, r) ==> r.key in index && index[r.key] == (role, r))
    && (forall k :: k in index ==> Logged(logs, index[k].0, index[k].1) && index[k].1.key == k)
  }

  method Index(logs: Logs) returns (index: Option<map<Key, (nat, Record)>>)
    ensures index.Some? <==> LogsDistinct(logs)
    ensures index.Some? ==> Indexes(logs, index.value)
  {
    hide Indexed, LogsDistinct, Indexes, InLogs;
    var found: map<Key, (nat, Record)>, role := map[], 0;
    NothingIndexed(logs);
    while role < |logs|
      invariant 0 <= role <= |logs| && Indexed(logs, role, 0, found)
    {
      var i := 0;
      while i < |logs[role]|
        invariant 0 <= i <= |logs[role]| && Indexed(logs, role, i, found)
      {
        var record := logs[role][i];
        OperationIsInLogs(logs, role, i);
        if Operation(record) {
          if record.key in found {
            Duplicate(logs, role, i, found);
            return None;
          }
          IndexGrows(logs, role, i, found);
          found := found[record.key := (role, record)];
        } else {
          IndexSkips(logs, role, i, found);
        }
        i := i + 1;
      }
      NextLog(logs, role, found);
      role := role + 1;
    }
    IndexIsComplete(logs, found);
    index := Some(found);
  }

  lemma NothingIndexed(logs: Logs)
    ensures Indexed(logs, 0, 0, map[])
  {
  }

  lemma OperationIsInLogs(logs: Logs, role: nat, i: nat)
    requires role < |logs| && i < |logs[role]|
    ensures InLogs(logs, role, i) <==> Operation(logs[role][i])
  {
  }

  lemma Duplicate(logs: Logs, role: nat, i: nat, index: map<Key, (nat, Record)>)
    requires Indexed(logs, role, i, index) && InLogs(logs, role, i) && logs[role][i].key in index
    ensures !LogsDistinct(logs)
  {
  }

  lemma IndexGrows(logs: Logs, role: nat, i: nat, index: map<Key, (nat, Record)>)
    requires Indexed(logs, role, i, index) && InLogs(logs, role, i) && logs[role][i].key !in index
    ensures Indexed(logs, role, i + 1, index[logs[role][i].key := (role, logs[role][i])])
  {
    var after := index[logs[role][i].key := (role, logs[role][i])];
    forall a, j | InLogs(logs, a, j) && Before(a, j, role, i + 1)
      ensures Before(a, j, role, i) || (a == role && j == i) { }
    forall k | k in after ensures exists a, j ::
      InLogs(logs, a, j) && Before(a, j, role, i + 1) && after[k] == (a, logs[a][j]) && logs[a][j].key == k {
      if k in index {
        var a, j :| InLogs(logs, a, j) && Before(a, j, role, i) && index[k] == (a, logs[a][j]) && logs[a][j].key == k;
        assert Before(a, j, role, i + 1);
      } else {
        assert Before(role, i, role, i + 1);
      }
    }
  }

  lemma IndexSkips(logs: Logs, role: nat, i: nat, index: map<Key, (nat, Record)>)
    requires Indexed(logs, role, i, index) && role < |logs| && i < |logs[role]| && !Operation(logs[role][i])
    ensures Indexed(logs, role, i + 1, index)
  {
  }

  lemma NextLog(logs: Logs, role: nat, index: map<Key, (nat, Record)>)
    requires role < |logs| && Indexed(logs, role, |logs[role]|, index)
    ensures Indexed(logs, role + 1, 0, index)
  {
  }

  lemma IndexIsComplete(logs: Logs, index: map<Key, (nat, Record)>)
    requires Indexed(logs, |logs|, 0, index)
    ensures LogsDistinct(logs) && Indexes(logs, index)
  {
  }

  /** The spans read so far, each under its identity with its worker. */
  ghost predicate Taken(spans: seq<Span>, index: map<Key, (nat, Record)>, received: map<Key, (nat, Span)>) {
    && (forall s :: s in spans ==> s.key in received && received[s.key] == (WorkerOf(index, s.key), s))
    && (forall k :: k in received ==> received[k].1 in spans && received[k].1.key == k)
  }

  function WorkerOf(index: map<Key, (nat, Record)>, key: Key): nat { if key in index then index[key].0 else 0 }

  ghost predicate AllExplained(spans: seq<Span>, index: map<Key, (nat, Record)>) {
    forall s :: s in spans ==> s.key in index && Match(s, index[s.key].1)
  }

  method Receive(spans: seq<Span>, index: map<Key, (nat, Record)>) returns (received: Option<map<Key, (nat, Span)>>)
    ensures received.Some? <==> SpansDistinct(spans) && AllExplained(spans, index)
    ensures received.Some? ==> Taken(spans, index, received.value) && |received.value| == |spans|
  {
    var taken: map<Key, (nat, Span)>, i := map[], 0;
    while i < |spans|
      invariant 0 <= i <= |spans| && Taken(spans[..i], index, taken) && |taken| == i
      invariant SpansDistinct(spans[..i]) && AllExplained(spans[..i], index)
    {
      hide Taken, SpansDistinct, AllExplained;
      var span := spans[i];
      SpanDecides(spans, i, index, taken);
      if span.key in taken || span.key !in index || !Match(span, index[span.key].1) { return None; }
      TakeOne(spans, i, index, taken);
      taken := taken[span.key := (index[span.key].0, span)];
      i := i + 1;
    }
    assert spans[..|spans|] == spans;
    received := Some(taken);
  }

  lemma SpanDecides(spans: seq<Span>, i: nat, index: map<Key, (nat, Record)>, taken: map<Key, (nat, Span)>)
    requires i < |spans| && Taken(spans[..i], index, taken)
    ensures spans[i].key in taken ==> !SpansDistinct(spans)
    ensures spans[i].key !in index || !Match(spans[i], index[spans[i].key].1) ==> !AllExplained(spans, index)
  {
  }

  lemma TakeOne(spans: seq<Span>, i: nat, index: map<Key, (nat, Record)>, taken: map<Key, (nat, Span)>)
    requires i < |spans| && Taken(spans[..i], index, taken) && SpansDistinct(spans[..i])
    requires AllExplained(spans[..i], index)
    requires spans[i].key !in taken && spans[i].key in index && Match(spans[i], index[spans[i].key].1)
    ensures var after := taken[spans[i].key := (index[spans[i].key].0, spans[i])];
            Taken(spans[..i + 1], index, after) && SpansDistinct(spans[..i + 1]) && AllExplained(spans[..i + 1], index)
              && |after| == |taken| + 1
  {
    var after := taken[spans[i].key := (index[spans[i].key].0, spans[i])];
    assert spans[..i + 1] == spans[..i] + [spans[i]];
    TakeAnother(spans[..i], spans[i], index, taken);
    AnotherIsDistinct(spans[..i], spans[i], index, taken);
    hide Taken, SpansDistinct, AllExplained;
    assert after.Keys == taken.Keys + {spans[i].key};
    assert |after| == |after.Keys| && |taken| == |taken.Keys|;
  }

  lemma TakeAnother(before: seq<Span>, span: Span, index: map<Key, (nat, Record)>, taken: map<Key, (nat, Span)>)
    requires Taken(before, index, taken) && AllExplained(before, index)
    requires span.key !in taken && span.key in index && Match(span, index[span.key].1)
    ensures Taken(before + [span], index, taken[span.key := (index[span.key].0, span)])
    ensures AllExplained(before + [span], index)
  {
  }

  lemma AnotherIsDistinct(before: seq<Span>, span: Span, index: map<Key, (nat, Record)>, taken: map<Key, (nat, Span)>)
    requires Taken(before, index, taken) && SpansDistinct(before) && span.key !in taken
    ensures SpansDistinct(before + [span])
  {
  }

  // ---- Chains over what was received ----

  /** The worker recorded beside a received span is the one that logged it. */
  ghost predicate OwnersRight(spans: seq<Span>, logs: Logs, received: map<Key, (nat, Span)>) {
    && (forall s :: s in spans ==> s.key in received && received[s.key].1 == s)
    && (forall k :: k in received ==> received[k].1 in spans && received[k].1.key == k)
    && (forall s, role: nat :: s in spans ==> (Owns(logs, role, s.key) <==> received[s.key].0 == role))
  }

  lemma OwnersKnown(spans: seq<Span>, logs: Logs, index: map<Key, (nat, Record)>, received: map<Key, (nat, Span)>)
    requires Indexes(logs, index) && Taken(spans, index, received) && AllExplained(spans, index)
    ensures OwnersRight(spans, logs, received)
  {
  }

  function PeersOf(received: map<Key, (nat, Span)>, source: nat): set<Key> {
    set k | k in received && received[k].1.name.PeerExchange? && received[k].0 == source
  }

  function ChildrenOf(received: map<Key, (nat, Span)>, peer: Span): set<Key> {
    set k | k in received && Under(received[k].1, peer)
  }

  predicate HasRoot(received: map<Key, (nat, Span)>, source: nat, peer: Span, root: Span) {
    && peer.parent.Some? && Key(peer.key.trace, peer.parent.value) in received
    && received[Key(peer.key.trace, peer.parent.value)] == (source, root) && root.name.ClientRequest?
      && root.parent.None?
  }

  predicate Found(received: map<Key, (nat, Span)>, source: nat, target: nat, root: Span, peer: Span, child: Span) {
    && PeersOf(received, source) == {peer.key} && peer.key in received && received[peer.key].1 == peer
    && HasRoot(received, source, peer, root)
    && ChildrenOf(received, peer) == {child.key} && child.key in received && received[child.key] == (target, child)
    && root.outcome.Completed? && peer.outcome.Completed? && child.outcome.Completed?
  }

  lemma LinksAreFound(spans: seq<Span>, logs: Logs, received: map<Key, (nat, Span)>, source: nat, target: nat,
                      root: Span, peer: Span, child: Span)
    requires OwnersRight(spans, logs, received)
    ensures Links(spans, logs, source, target, root, peer, child) <==>
      Found(received, source, target, root, peer, child)
  {
    if Links(spans, logs, source, target, root, peer, child) {
      assert PeersOf(received, source) == {peer.key};
      assert ChildrenOf(received, peer) == {child.key};
    }
    if Found(received, source, target, root, peer, child) {
      forall q | q in spans && q.name.PeerExchange? && Owns(logs, source, q.key) ensures q == peer {
        assert q.key in PeersOf(received, source);
      }
      forall q | q in spans && Under(q, peer) ensures q == child {
        assert q.key in ChildrenOf(received, peer);
      }
      assert peer.key in PeersOf(received, source) && child.key in ChildrenOf(received, peer);
    }
  }

  lemma Single<T>(s: set<T>, x: T)
    requires |s| == 1 && x in s
    ensures s == {x}
  {
    assert |s - {x}| == 0;
  }

  /** One chain, decided on the received spans alone. */
  method HasChain(received: map<Key, (nat, Span)>, source: nat, target: nat) returns (ok: bool)
    requires forall k :: k in received ==> received[k].1.key == k
    ensures ok <==> exists root, peer, child :: Found(received, source, target, root, peer, child)
  {
    var matches := PeersOf(received, source);
    if |matches| != 1 { return false; }
    var at :| at in matches;
    Single(matches, at);
    var peer := received[at].1;
    if peer.parent.None? || Key(peer.key.trace, peer.parent.value) !in received { return false; }
    var (rootRole, root) := received[Key(peer.key.trace, peer.parent.value)];
    if rootRole != source || !root.name.ClientRequest? || root.parent.Some? { return false; }
    var children := ChildrenOf(received, peer);
    if |children| != 1 { return false; }
    var below :| below in children;
    Single(children, below);
    var (role, child) := received[below];
    ok := role == target && root.outcome.Completed? && peer.outcome.Completed? && child.outcome.Completed?;
    assert ok ==> Found(received, source, target, root, peer, child);
  }

  function KeysNamed(received: map<Key, (nat, Span)>, name: Name): set<Key> {
    set k
    | k in received && received[k].1.name == name
  }

  lemma KeysCount(spans: seq<Span>, logs: Logs, received: map<Key, (nat, Span)>, name: Name)
    requires OwnersRight(spans, logs, received)
    ensures |KeysNamed(received, name)| == |Named(spans, name)|
  {
    KeysOf(Named(spans, name), KeysNamed(received, name));
    hide Owns;
  }

  lemma {:induction false} KeysOf(named: set<Span>, keys: set<Key>)
    requires forall s :: s in named ==> s.key in keys
    requires forall k :: k in keys ==> exists s :: s in named && s.key == k
    requires forall s, t :: s in named && t in named && s.key == t.key ==> s == t
    ensures |named| == |keys|
  {
    if named != {} {
      var s :| s in named;
      KeysOf(named - {s}, keys - {s.key});
    } else {
      assert keys == {};
    }
  }

  /** The number of operations received, if and only if they form exactly the two admissions and match every log. */
  method Check(spans: seq<Span>, logs: Logs) returns (n: Option<nat>)
    ensures n.Some? <==> Acceptable(spans, logs)
    ensures n.Some? ==> n.value == |spans|
  {
    hide LogsDistinct, SpansDistinct, Links, Found, Logged, Owns, Named, KeysNamed, Indexes, Taken, AllExplained,
      OwnersRight;
    if |logs| != 3 { return None; }
    var index := Index(logs);
    if index.None? { return None; }
    ExplainedIff(spans, logs, index.value);
    var received := Receive(spans, index.value);
    if received.None? { return None; }
    OwnersKnown(spans, logs, index.value, received.value);
    ChainIff(spans, logs, received.value, 1, 0);
    ChainIff(spans, logs, received.value, 2, 1);
    KeysCount(spans, logs, received.value, PeerExchange);
    KeysCount(spans, logs, received.value, Admission);
    if |KeysNamed(received.value, PeerExchange)| != 2 || |KeysNamed(received.value, Admission)| != 2 { return None; }
    var first := HasChain(received.value, 1, 0);
    if !first { return None; }
    var second := HasChain(received.value, 2, 1);
    if !second { return None; }
    ReceivedIff(spans, logs, index.value, received.value);
    if received.value.Keys != index.value.Keys { return None; }
    n := Some(|received.value|);
  }

  lemma ExplainedIff(spans: seq<Span>, logs: Logs, index: map<Key, (nat, Record)>)
    requires Indexes(logs, index)
    ensures AllExplained(spans, index) <==> forall s :: s in spans ==> Explained(logs, s)
  {
  }

  lemma ReceivedIff(spans: seq<Span>, logs: Logs, index: map<Key, (nat, Record)>, received: map<Key, (nat, Span)>)
    requires Indexes(logs, index) && Taken(spans, index, received) && AllExplained(spans, index)
    ensures received.Keys == index.Keys <==> forall role, r :: Logged(logs, role, r) ==> Received(spans, r.key)
  {
  }

  lemma ChainIff(spans: seq<Span>, logs: Logs, received: map<Key, (nat, Span)>, source: nat, target: nat)
    requires OwnersRight(spans, logs, received)
    ensures Chain(spans, logs, source, target) <==> exists root, peer, child ::
      Found(received, source, target, root, peer, child)
  {
    forall root, peer, child ensures Links(spans, logs, source, target, root, peer, child) <==>
      Found(received, source, target, root, peer, child) {
      LinksAreFound(spans, logs, received, source, target, root, peer, child);
    }
    hide Links, Found, OwnersRight;
  }

  // ---- What acceptance implies ----

  lemma OneRecord(logs: Logs, a: int, b: int, r: Record, q: Record)
    requires LogsDistinct(logs) && Logged(logs, a, r) && Logged(logs, b, q) && r.key == q.key
    ensures a == b && r == q
  {
  }

  /** Acceptance pairs every received span with exactly one logged operation, and the reverse. */
  lemma AcceptedIsBijection(spans: seq<Span>, logs: Logs)
    requires Acceptable(spans, logs)
    ensures forall s :: s in spans ==> exists role, r :: Logged(logs, role, r) && Match(s, r)
    ensures forall s, a, r, b, q ::
      s in spans && Logged(logs, a, r) && Match(s, r) && Logged(logs, b, q) && Match(s, q) ==> a == b && r == q
    ensures forall role, r :: Logged(logs, role, r) ==> exists i :: 0 <= i < |spans| && Match(spans[i], r)
    ensures forall i, j, r :: 0 <= i < |spans| && 0 <= j < |spans| && Match(spans[i], r) && Match(spans[j], r) ==>
      i == j
  {
    forall s | s in spans ensures exists role, r :: Logged(logs, role, r) && Match(s, r) { assert Explained(logs, s); }
    forall s, a, r, b, q | s in spans && Logged(logs, a, r) && Match(s, r) && Logged(logs, b, q) && Match(s, q)
      ensures a == b && r == q {
      OneRecord(logs, a, b, r, q);
    }
    forall role, r | Logged(logs, role, r) ensures exists i :: 0 <= i < |spans| && Match(spans[i], r) {
      ReceivedMatches(spans, logs, role, r);
    }
    hide Chain, LogsDistinct, Logged, Named;
  }

  lemma ReceivedMatches(spans: seq<Span>, logs: Logs, role: int, r: Record)
    requires LogsDistinct(logs) && (forall s :: s in spans ==> Explained(logs, s)) && Logged(logs, role, r)
    requires Received(spans, r.key)
    ensures exists i :: 0 <= i < |spans| && Match(spans[i], r)
  {
  }

  /** Two chains, from worker 1 to 0 and from 2 to 1, share no span and hold every peer exchange and admission. */
  lemma AcceptedIsTwoChains(spans: seq<Span>, logs: Logs)
    returns (first: (Span, Span, Span), second: (Span, Span, Span))
    requires Acceptable(spans, logs)
    ensures Links(spans, logs, 1, 0, first.0, first.1, first.2)
    ensures Links(spans, logs, 2, 1, second.0, second.1, second.2)
    ensures {first.0, first.1, first.2} !! {second.0, second.1, second.2}
    ensures Named(spans, PeerExchange) == {first.1, second.1} && Named(spans, Admission) == {first.2, second.2}
  {
    var r1, p1, c1 :| Links(spans, logs, 1, 0, r1, p1, c1);
    var r2, p2, c2 :| Links(spans, logs, 2, 1, r2, p2, c2);
    first, second := (r1, p1, c1), (r2, p2, c2);
    ChainsDiffer(spans, logs, r1, p1, c1, r2, p2, c2);
    hide LogsDistinct, Links, Chain, Named;
    Pair(Named(spans, PeerExchange), p1, p2);
    Pair(Named(spans, Admission), c1, c2);
  }

  lemma ChainsDiffer(spans: seq<Span>, logs: Logs, r1: Span, p1: Span, c1: Span, r2: Span, p2: Span, c2: Span)
    requires LogsDistinct(logs) && Links(spans, logs, 1, 0, r1, p1, c1) && Links(spans, logs, 2, 1, r2, p2, c2)
    ensures p1 != p2 && c1 != c2 && {r1, p1, c1} !! {r2, p2, c2}
    ensures {p1, p2} <= Named(spans, PeerExchange) && {c1, c2} <= Named(spans, Admission)
  {
  }

  lemma Pair(s: set<Span>, a: Span, b: Span)
    requires |s| == 2 && a in s && b in s && a != b
    ensures s == {a, b}
  {
    assert |s - {a, b}| == 0;
  }

  // ---- Order does not matter ----

  ghost predicate Reordered(a: Logs, b: Logs) { |a| == |b| && forall role :: 0 <= role < |a| ==>
    multiset(a[role]) == multiset(b[role]) }

  /** The order of the spans, and of each worker's own log, never changes the verdict. */
  lemma AcceptanceIgnoresOrder(spans: seq<Span>, logs: Logs, spans': seq<Span>, logs': Logs)
    requires multiset(spans) == multiset(spans') && Reordered(logs, logs')
    ensures Acceptable(spans, logs) ==> Acceptable(spans', logs')
  {
    if Acceptable(spans, logs) {
      SpansReordered(spans, spans');
      LogsReordered(logs, logs');
      SameElements(spans, spans');
      LoggedAlike(logs, logs');
      hide LogsDistinct, SpansDistinct, Chain, Logged, Reordered;
      ElementsDecide(spans, logs, spans', logs');
    }
  }

  lemma LoggedAlike(a: Logs, b: Logs)
    requires Reordered(a, b)
    ensures forall role, r :: Logged(a, role, r) <==> Logged(b, role, r)
  {
    forall role, r ensures Logged(a, role, r) <==> Logged(b, role, r) {
      if 0 <= role < |a| { SameElements(a[role], b[role]); }
    }
  }

  lemma ElementsDecide(spans: seq<Span>, logs: Logs, spans': seq<Span>, logs': Logs)
    requires Acceptable(spans, logs) && |logs'| == 3 && LogsDistinct(logs') && SpansDistinct(spans')
    requires forall s :: s in spans <==> s in spans'
    requires forall role, r :: Logged(logs, role, r) <==> Logged(logs', role, r)
    ensures Acceptable(spans', logs')
  {
    hide LogsDistinct, SpansDistinct, Owns, Chain, Named, Explained, Received, Logged;
    OwnersAlike(logs, logs');
    ChainReordered(spans, logs, spans', logs', 1, 0);
    ChainReordered(spans, logs, spans', logs', 2, 1);
    SameNamed(spans, spans', PeerExchange);
    SameNamed(spans, spans', Admission);
    CoverageAlike(spans, logs, spans', logs');
  }

  lemma OwnersAlike(logs: Logs, logs': Logs)
    requires forall role, r :: Logged(logs, role, r) <==> Logged(logs', role, r)
    ensures forall role, key :: Owns(logs, role, key) <==> Owns(logs', role, key)
  {
  }

  lemma CoverageAlike(spans: seq<Span>, logs: Logs, spans': seq<Span>, logs': Logs)
    requires forall s :: s in spans <==> s in spans'
    requires forall role, r :: Logged(logs, role, r) <==> Logged(logs', role, r)
    requires forall s :: s in spans ==> Explained(logs, s)
    requires forall role, r :: Logged(logs, role, r) ==> Received(spans, r.key)
    ensures forall s :: s in spans' ==> Explained(logs', s)
    ensures forall role, r :: Logged(logs', role, r) ==> Received(spans', r.key)
  {
  }

  lemma SameNamed(spans: seq<Span>, spans': seq<Span>, name: Name)
    requires forall s :: s in spans <==> s in spans'
    ensures Named(spans, name) == Named(spans', name)
  {
  }

  lemma ChainReordered(spans: seq<Span>, logs: Logs, spans': seq<Span>, logs': Logs, source: nat, target: nat)
    requires forall s :: s in spans <==> s in spans'
    requires forall role, key :: Owns(logs, role, key) <==> Owns(logs', role, key)
    requires Chain(spans, logs, source, target)
    ensures Chain(spans', logs', source, target)
  {
    hide Owns;
    var root, peer, child :| Links(spans, logs, source, target, root, peer, child);
    assert Links(spans', logs', source, target, root, peer, child);
  }

  lemma SameElements<T>(a: seq<T>, b: seq<T>)
    requires multiset(a) == multiset(b)
    ensures forall x :: x in a <==> x in b
  {
    forall x ensures x in a <==> x in b { assert x in multiset(a) <==> x in a; }
  }

  lemma CountedTwice<T>(a: seq<T>, i: nat, j: nat)
    requires i < j < |a| && a[i] == a[j]
    ensures multiset(a)[a[i]] >= 2
  {
    assert a == a[..j] + a[j..];
    assert a[..j][i] == a[i] && a[j..][0] == a[i];
    assert multiset(a) == multiset(a[..j]) + multiset(a[j..]);
  }

  lemma {:induction false} CountedOnce<T>(a: seq<T>, x: T)
    requires forall i, j :: 0 <= i < j < |a| && a[i] == x ==> a[j] != x
    ensures multiset(a)[x] <= 1
  {
    if a != [] {
      assert a == a[..1] + a[1..];
      assert multiset(a) == multiset(a[..1]) + multiset(a[1..]);
      assert a[..1] == [a[0]];
      if a[0] == x {
        forall j | 0 <= j < |a[1..]| ensures a[1..][j] != x { assert a[1..][j] == a[j + 1]; }
      } else {
        forall i, j | 0 <= i < j < |a[1..]| && a[1..][i] == x ensures a[1..][j] != x { assert a[i + 1] == x; }
        CountedOnce(a[1..], x);
      }
    }
  }

  lemma SpansReordered(a: seq<Span>, b: seq<Span>)
    requires multiset(a) == multiset(b) && SpansDistinct(a)
    ensures SpansDistinct(b)
  {
    SameElements(a, b);
    forall i, j | 0 <= i < j < |b| ensures b[i].key != b[j].key {
      if b[i].key == b[j].key {
        assert b[i] in a && b[j] in a;
        CountedOnce(a, b[i]);
        CountedTwice(b, i, j);
      }
    }
  }

  lemma LogsReordered(a: Logs, b: Logs)
    requires Reordered(a, b) && LogsDistinct(a)
    ensures LogsDistinct(b)
  {
    forall x, i, y, j | InLogs(b, x, i) && InLogs(b, y, j) && b[x][i].key == b[y][j].key ensures x == y && i == j {
      SameElements(a[x], b[x]);
      SameElements(a[y], b[y]);
      assert Logged(a, x, b[x][i]) && Logged(a, y, b[y][j]);
      OneRecord(a, x, y, b[x][i], b[y][j]);
      if i != j {
        OnceInLog(a, x, b[x][i]);
        CountedTwice(b[x], if i < j then i else j, if i < j then j else i);
      }
    }
  }

  lemma OnceInLog(logs: Logs, role: nat, r: Record)
    requires LogsDistinct(logs) && Logged(logs, role, r)
    ensures multiset(logs[role])[r] <= 1
  {
    forall i, j | 0 <= i < j < |logs[role]| && logs[role][i] == r ensures logs[role][j] != r {
      if logs[role][j] == r { assert InLogs(logs, role, i) && InLogs(logs, role, j); }
    }
    CountedOnce(logs[role], r);
  }
}
