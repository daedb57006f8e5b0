/**
 Which received spans and worker logs correlate (correlate in scripts/worker_formation_receipts.py), as one statement
 about spans and records.
 */
module CorrelateMeaning {
  import opened Aggregates
  import opened Correlate

  /** A log's i-th record, if it is one of the three operations. */
  ghost predicate Op(logs: Logs, a: int, j: int) {
    && 0 <= a < |logs| && 0 <= j < |logs[a]|
    && (logs[a][j].event == ClientRequest || logs[a][j].event == PeerExchange || logs[a][j].event == Admission)
  }

  ghost predicate Tells(s: Span, r: Record) {
    && s.key.trace == r.key.trace && s.key.span == r.key.span
    && s.name == r.event && s.end == r.nanos && s.outcome == r.outcome
  }

  /** Every span is a logged operation, every operation was received, and no identity is used twice on either side. */
  ghost predicate OneToOne(spans: seq<Span>, logs: Logs) {
    && (forall i, j :: 0 <= i < |spans| && 0 <= j < |spans| && spans[i].key == spans[j].key ==> i == j)
    && (forall a, i, b, j :: Op(logs, a, i) && Op(logs, b, j) && logs[a][i].key == logs[b][j].key ==> a == b && i == j)
    && (forall s :: s in spans ==> Told(logs, s)) && (forall a, j :: Op(logs, a, j) ==> Heard(spans, logs[a][j]))
  }

  ghost predicate Told(logs: Logs, s: Span) { exists a, j :: Op(logs, a, j) && Tells(s, logs[a][j]) }

  ghost predicate Heard(spans: seq<Span>, r: Record) { exists s :: s in spans && Tells(s, r) }

  ghost predicate By(logs: Logs, role: int, s: Span) { exists j :: Op(logs, role, j) && logs[role][j].key == s.key }

  /** One worker's join: a root request, the exchange under it, and the admission under that at the other worker. */
  ghost predicate Joins(logs: Logs, source: int, target: int, root: Span, peer: Span, child: Span) {
    && root.name == ClientRequest && peer.name == PeerExchange && child.name == Admission
    && root.parent == None && peer.parent == Some(root.key.span) && child.parent == Some(peer.key.span)
    && root.key.trace == peer.key.trace == child.key.trace
    && By(logs, source, root) && By(logs, source, peer) && By(logs, target, child)
    && root.outcome == peer.outcome == child.outcome == Completed
  }

  /** The two joins, and no other exchange or admission. */
  ghost predicate OnlyJoins(spans: seq<Span>, logs: Logs, r1: Span, p1: Span, c1: Span, r2: Span, p2: Span, c2: Span) {
    && r1 in spans && p1 in spans && c1 in spans && r2 in spans && p2 in spans && c2 in spans
    && Joins(logs, 1, 0, r1, p1, c1) && Joins(logs, 2, 1, r2, p2, c2)
    && forall s :: s in spans ==>
         (s.name == PeerExchange ==> s == p1 || s == p2) && (s.name == Admission ==> s == c1 || s == c2)
  }

  ghost predicate Correlated(spans: seq<Span>, logs: Logs) {
    && |logs| == 3 && OneToOne(spans, logs)
    && exists r1, p1, c1, r2, p2, c2 :: OnlyJoins(spans, logs, r1, p1, c1, r2, p2, c2)
  }

  lemma OpIff(logs: Logs, a: int, j: int)
    ensures Op(logs, a, j) <==> InLogs(logs, a, j)
  {
  }

  lemma ByIff(logs: Logs, role: int, s: Span)
    ensures By(logs, role, s) <==> Owns(logs, role, s.key)
  {
    if By(logs, role, s) {
      var j :| Op(logs, role, j) && logs[role][j].key == s.key;
      assert Logged(logs, role, logs[role][j]);
    }
    if Owns(logs, role, s.key) {
      var r :| Logged(logs, role, r) && r.key == s.key;
      var j :| 0 <= j < |logs[role]| && logs[role][j] == r;
      assert Op(logs, role, j);
    }
  }

  lemma OneToOneIff(spans: seq<Span>, logs: Logs)
    ensures OneToOne(spans, logs) <==>
            && LogsDistinct(logs) && SpansDistinct(spans) && (forall s :: s in spans ==> Explained(logs, s))
            && forall role, r :: Logged(logs, role, r) ==> Received(spans, r.key)
  {
    forall a, j ensures Op(logs, a, j) <==> InLogs(logs, a, j) { OpIff(logs, a, j); }
    forall s ensures Told(logs, s) <==> Explained(logs, s) { ToldIff(logs, s); }
    hide Op, InLogs, Told, Explained, Heard, Logged, Received;
    if OneToOne(spans, logs) {
      forall role, r | Logged(logs, role, r) ensures Received(spans, r.key) { LoggedIsReceived(spans, logs, role, r); }
    }
    if LogsDistinct(logs) && SpansDistinct(spans) && (forall s :: s in spans ==> Explained(logs, s))
       && (forall role, r :: Logged(logs, role, r) ==> Received(spans, r.key)) {
      forall a, j | Op(logs, a, j) ensures Heard(spans, logs[a][j]) { OpIsHeard(spans, logs, a, j); }
    }
  }

  lemma ToldIff(logs: Logs, s: Span)
    ensures Told(logs, s) <==> Explained(logs, s)
  {
    if Told(logs, s) {
      var a, j :| Op(logs, a, j) && Tells(s, logs[a][j]);
      assert Logged(logs, a, logs[a][j]) && Match(s, logs[a][j]);
    }
    if Explained(logs, s) {
      var role, r :| Logged(logs, role, r) && Match(s, r);
      var j :| 0 <= j < |logs[role]| && logs[role][j] == r;
      assert Op(logs, role, j) && Tells(s, logs[role][j]);
    }
  }

  lemma LoggedIsReceived(spans: seq<Span>, logs: Logs, role: int, r: Record)
    requires (forall a, j :: Op(logs, a, j) ==> Heard(spans, logs[a][j])) && Logged(logs, role, r)
    ensures Received(spans, r.key)
  {
    var j :| 0 <= j < |logs[role]| && logs[role][j] == r;
    assert Op(logs, role, j);
  }

  lemma OpIsHeard(spans: seq<Span>, logs: Logs, a: int, j: int)
    requires LogsDistinct(logs) && (forall s :: s in spans ==> Explained(logs, s)) && Op(logs, a, j)
    requires forall role, r :: Logged(logs, role, r) ==> Received(spans, r.key)
    ensures Heard(spans, logs[a][j])
  {
    assert Logged(logs, a, logs[a][j]);
    var s :| s in spans && s.key == logs[a][j].key;
    assert Explained(logs, s);
    var b, r :| Logged(logs, b, r) && Match(s, r);
    var k :| 0 <= k < |logs[b]| && logs[b][k] == r;
    assert InLogs(logs, b, k) && InLogs(logs, a, j);
    assert Tells(s, logs[a][j]);
  }

  lemma LinksGiveJoin(spans: seq<Span>, logs: Logs, source: nat, target: nat, root: Span, peer: Span, child: Span)
    requires Links(spans, logs, source, target, root, peer, child)
    ensures Joins(logs, source, target, root, peer, child)
  {
    ByIff(logs, source, root);
    ByIff(logs, source, peer);
    ByIff(logs, target, child);
    hide Owns, By;
  }

  lemma JoinsGiveLink(spans: seq<Span>, logs: Logs, source: nat, target: nat, root: Span, peer: Span, child: Span)
    requires Joins(logs, source, target, root, peer, child) && root in spans && peer in spans && child in spans
    requires forall q :: q in spans && q.name == PeerExchange && Owns(logs, source, q.key) ==> q == peer
    requires forall q :: q in spans && Under(q, peer) ==> q == child
    ensures Links(spans, logs, source, target, root, peer, child)
  {
    ByIff(logs, source, root);
    ByIff(logs, source, peer);
    ByIff(logs, target, child);
    hide Owns, By;
  }

  /** An operation is one worker's. */
  lemma OneOwner(logs: Logs, a: int, b: int, key: Key)
    requires LogsDistinct(logs) && Owns(logs, a, key) && Owns(logs, b, key)
    ensures a == b
  {
    var r :| Logged(logs, a, r) && r.key == key;
    var q :| Logged(logs, b, q) && q.key == key;
    var i :| 0 <= i < |logs[a]| && logs[a][i] == r;
    var j :| 0 <= j < |logs[b]| && logs[b][j] == q;
    assert InLogs(logs, a, i) && InLogs(logs, b, j);
  }

  lemma OnlyJoinsGiveChains(spans: seq<Span>, logs: Logs, r1: Span, p1: Span, c1: Span, r2: Span, p2: Span, c2: Span)
    requires LogsDistinct(logs) && SpansDistinct(spans) && OnlyJoins(spans, logs, r1, p1, c1, r2, p2, c2)
    ensures Chain(spans, logs, 1, 0) && Chain(spans, logs, 2, 1)
    ensures Named(spans, PeerExchange) == {p1, p2} && Named(spans, Admission) == {c1, c2} && p1 != p2 && c1 != c2
  {
    ByIff(logs, 1, p1);
    ByIff(logs, 2, p2);
    if Owns(logs, 1, p2.key) { OneOwner(logs, 1, 2, p2.key); }
    if Owns(logs, 2, p1.key) { OneOwner(logs, 1, 2, p1.key); }
    assert p1.key == p2.key ==> Owns(logs, 1, p2.key);
    hide Owns, By, LogsDistinct;
    JoinsGiveLink(spans, logs, 1, 0, r1, p1, c1);
    JoinsGiveLink(spans, logs, 2, 1, r2, p2, c2);
  }

  /** Spans and logs correlate exactly if they match one to one and hold the two joins and no other. */
  lemma AcceptableIff(spans: seq<Span>, logs: Logs)
    ensures Acceptable(spans, logs) <==> Correlated(spans, logs)
  {
    OneToOneIff(spans, logs);
    if Acceptable(spans, logs) { AcceptedIsCorrelated(spans, logs); }
    if Correlated(spans, logs) {
      hide *;
      CorrelatedIsAccepted(spans, logs);
    }
  }

  lemma CorrelatedIsAccepted(spans: seq<Span>, logs: Logs)
    requires Correlated(spans, logs)
    ensures Acceptable(spans, logs)
  {
    OneToOneIff(spans, logs);
    hide OneToOne, LogsDistinct, SpansDistinct, Explained, Logged, Received, Chain, Named, OnlyJoins;
    var r1, p1, c1, r2, p2, c2 :| OnlyJoins(spans, logs, r1, p1, c1, r2, p2, c2);
    OnlyJoinsGiveChains(spans, logs, r1, p1, c1, r2, p2, c2);
  }

  lemma AcceptedIsCorrelated(spans: seq<Span>, logs: Logs)
    requires Acceptable(spans, logs)
    ensures Correlated(spans, logs)
  {
    OneToOneIff(spans, logs);
    var first, second := AcceptedIsTwoChains(spans, logs);
    hide OneToOne, LogsDistinct, SpansDistinct, Explained, Logged, Received, Chain, Named, Links, Joins, OnlyJoins;
    LinksGiveJoin(spans, logs, 1, 0, first.0, first.1, first.2);
    LinksGiveJoin(spans, logs, 2, 1, second.0, second.1, second.2);
    JoinsAreAll(spans, logs, first, second);
  }

  lemma JoinsAreAll(spans: seq<Span>, logs: Logs, first: (Span, Span, Span), second: (Span, Span, Span))
    requires Links(spans, logs, 1, 0, first.0, first.1, first.2)
    requires Links(spans, logs, 2, 1, second.0, second.1, second.2)
    requires Joins(logs, 1, 0, first.0, first.1, first.2) && Joins(logs, 2, 1, second.0, second.1, second.2)
    requires Named(spans, PeerExchange) == {first.1, second.1} && Named(spans, Admission) == {first.2, second.2}
    ensures OnlyJoins(spans, logs, first.0, first.1, first.2, second.0, second.1, second.2)
  {
    hide Joins, Owns;
    forall s | s in spans
      ensures s.name == PeerExchange ==> s == first.1 || s == second.1
      ensures s.name == Admission ==> s == first.2 || s == second.2
    {
      assert s.name == PeerExchange ==> s in Named(spans, PeerExchange);
      assert s.name == Admission ==> s in Named(spans, Admission);
    }
  }
}
