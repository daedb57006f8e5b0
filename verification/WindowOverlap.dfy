/**
 The overlap of the actual probe windows (scripts/pi_lab_results.py, review_overlap):
 reference-time intervals for each node's window, from its probe marks and from a
 clock exchange on either side of it.
 */
module WindowOverlap {
  import opened Aggregates
  import opened ClockExchange
  import M = Measurement

  datatype Policy = Policy(
    maxRoundTrip: int, maxOffsetWidth: int, maxWallChange: int, maxOffsetChange: int, maxCollectionSpan: int,
    maxStartSkew: int, minCommonWindow: int, maxFirstRequest: int, minLastCompletion: int)

  datatype Row = Row(role: int, measurement: M.Receipt, before: Exchange, after: Exchange)

  datatype LocalIssue =
    | Clock(issue: ClockIssue) | NodeWallChange | OffsetChangeLimit | ProbeWallChange | ProbeOutsideClockBracket
    | ProbeOutsideSupervisorBracket | NoTimedActivity | FirstRequestLate | LastCompletionEarly

  datatype CohortIssue = CollectionSpanLimit | CoordinatorWallChanged | StartSkewLimit | CommonWindowTooShort

  datatype Node = Node(role: int, offset: Interval, start: Interval, end: Interval, lateness: int,
                       activity: seq<M.Client>, measurementIssues: seq<M.Issue>)

  datatype Flagged = Flagged(role: int, issues: set<LocalIssue>)

  datatype Overlap = Overlap(runId: Identifier, within: bool, nodes: seq<Node>, nodeIssues: seq<Flagged>,
                             cohortIssues: seq<CohortIssue>, span: int, skew: int, common: int)

  predicate ValidPolicy(p: Policy) {
    && Bounded(p.maxRoundTrip) && Bounded(p.maxOffsetWidth) && Bounded(p.maxWallChange) && Bounded(p.maxOffsetChange)
    && Bounded(p.maxCollectionSpan) && Bounded(p.maxStartSkew) && Bounded(p.minCommonWindow)
    && Bounded(p.maxFirstRequest) && Bounded(p.minLastCompletion)
    && 0 < p.maxCollectionSpan <= 45_000_000_000 && 0 < p.minCommonWindow <= M.WINDOW
    && p.maxFirstRequest <= M.WINDOW && p.minLastCompletion <= M.WINDOW
  }

  function ChecksOf(p: Policy): Checks { Checks(p.maxRoundTrip, p.maxOffsetWidth, p.maxWallChange) }

  // ---- What is accepted for review ----

  predicate CohortExpected(expected: seq<M.Config>, n: int) {
    && |expected| == n
    && (forall r :: 0 <= r < n ==> M.ValidConfig(expected[r]) && expected[r].role == r && expected[r].workers == n)
    && (forall r :: 0 <= r < n ==> expected[r].target.formation == expected[0].target.formation)
    && (forall r, s :: 0 <= r < s < n ==> expected[r].target.node != expected[s].target.node)
  }

  predicate RowReviewable(row: Row, role: int, config: M.Config, runId: Identifier) {
    && row.role == role && M.Reviewed(row.measurement, config)
    && Genuine(row.before) && Genuine(row.after)
    && row.before.runId == runId && row.after.runId == runId
    && Follows(row.before, row.after)
  }

  /** The nonces of the first k rows, before and after exchange alternating. */
  ghost function NoncesTo(rows: seq<Row>, k: nat): seq<int>
    requires k <= |rows|
  {
    if k == 0 then [] else NoncesTo(rows, k - 1) + [rows[k - 1].before.nonce, rows[k - 1].after.nonce]
  }

  ghost predicate Reviewable(rows: seq<Row>, expected: seq<M.Config>, runId: Identifier, p: Policy) {
    && ValidPolicy(p) && 3 <= |rows| <= 5 && CohortExpected(expected, |rows|)
    && (forall r :: 0 <= r < |rows| ==> RowReviewable(rows[r], r, expected[r], runId))
    && Distinct(NoncesTo(rows, |rows|))
  }

  // ---- One node ----

  /** How far the true offset must have moved between two exchanges, at least; negative if it need not have moved. */
  function OffsetChange(row: Row): int {
    Max(row.before.offset.lo, row.after.offset.lo) - Min(row.before.offset.hi, row.after.offset.hi)
  }

  /** Both complete envelopes, widened by the change allowed over the whole collection. */
  function OffsetEnvelope(row: Row, p: Policy): Interval {
    Interval(Min(row.before.offset.lo, row.after.offset.lo) - p.maxOffsetChange,
             Max(row.before.offset.hi, row.after.offset.hi) + p.maxOffsetChange)
  }

  function NodeOf(row: Row, p: Policy): Node {
    var timing, mapping, offset := row.measurement.load.timing, p.maxWallChange, OffsetEnvelope(row, p);
    var start, marker := M.MarkInterval(timing.start), M.MarkInterval(timing.endMarker);
    var lateness := timing.endMarkerElapsed - M.WINDOW;
    Node(row.role, offset,
         Interval(start.lo - offset.hi, start.hi + mapping - offset.lo),
         Interval(marker.lo - lateness - mapping - offset.hi, marker.hi + mapping - lateness + mapping - offset.lo),
         lateness, row.measurement.load.activity, row.measurement.issues)
  }

  function ClientIssues(c: M.Client, p: Policy): set<LocalIssue> {
    if c.first.None? || c.last.None? then {NoTimedActivity}
    else
      (if c.first.value > p.maxFirstRequest then {FirstRequestLate} else {})
      + (if c.last.value < p.minLastCompletion then {LastCompletionEarly} else {})
  }

  function ProbeIssues(row: Row, p: Policy): set<LocalIssue> {
    var timing, mapping := row.measurement.load.timing, p.maxWallChange;
    var start, marker, change := M.MarkInterval(timing.start), M.MarkInterval(timing.endMarker),
      M.ProbeClockBounds(timing).wallChange;
    (if Max(Abs(change.lo), Abs(change.hi)) > mapping then {ProbeWallChange} else {})
    + (if start.lo < row.before.node.unix - mapping || marker.hi + mapping > row.after.node.unix + mapping
       then {ProbeOutsideClockBracket} else {})
    + (if start.lo < row.measurement.start - mapping || marker.hi + mapping > row.measurement.end + mapping
       then {ProbeOutsideSupervisorBracket} else {})
  }

  function LocalIssues(row: Row, p: Policy): set<LocalIssue> {
    (set i | i in Issues(row.before, ChecksOf(p)) + Issues(row.after, ChecksOf(p)) :: Clock(i))
    + (if Disagreement(row.before.node, row.after.node) > p.maxWallChange then {NodeWallChange} else {})
    + (if OffsetChange(row) > p.maxOffsetChange then {OffsetChangeLimit} else {})
    + ProbeIssues(row, p)
    + (set c, i | c in row.measurement.load.activity && i in ClientIssues(c, p) :: i)
  }

  method ReviewProbe(row: Row, checked: M.Checked, p: Policy) returns (node: Node, issues: set<LocalIssue>)
    requires |row.measurement.load.activity| == 2
    requires checked.probe == M.ProbeClockBounds(row.measurement.load.timing)
    requires checked.start == row.measurement.start && checked.end == row.measurement.end
    requires checked.activity == row.measurement.load.activity && checked.issues == row.measurement.issues
    ensures node == NodeOf(row, p)
    ensures issues == ProbeIssues(row, p) + set c, i | c in row.measurement.load.activity && i in ClientIssues(c, p) ::
      i
  {
    issues := {};
    var mapping := p.maxWallChange;
    var offset := Interval(Min(row.before.offset.lo, row.after.offset.lo) - p.maxOffsetChange,
                           Max(row.before.offset.hi, row.after.offset.hi) + p.maxOffsetChange);
    var probe := checked.probe;
    var start, marker := probe.start, probe.endMarker;
    start := start.(hi := start.hi + mapping);
    marker := marker.(hi := marker.hi + mapping);
    if Max(Abs(probe.wallChange.lo), Abs(probe.wallChange.hi)) > mapping { issues := issues + {ProbeWallChange}; }
    if start.lo < row.before.node.unix - mapping || marker.hi > row.after.node.unix + mapping {
      issues := issues + {ProbeOutsideClockBracket};
    }
    if start.lo < checked.start - mapping || marker.hi > checked.end + mapping {
      issues := issues + {ProbeOutsideSupervisorBracket};
    }
    var lateness := probe.endMarkerElapsed - M.WINDOW;
    var startReference := Interval(start.lo - offset.hi, start.hi - offset.lo);
    var endReference := Interval(marker.lo - lateness - mapping - offset.hi,
                                 marker.hi - lateness + mapping - offset.lo);
    var activity := checked.activity;
    for i := 0 to |activity|
      invariant issues == ProbeIssues(row, p) + set c, x | c in activity[..i] && x in ClientIssues(c, p) :: x
    {
      assert activity[..i + 1] == activity[..i] + [activity[i]];
      issues := issues + ClientIssues(activity[i], p);
    }
    assert activity[..|activity|] == activity;
    node := Node(row.role, offset, startReference, endReference, lateness, activity, checked.issues);
  }

  method ReviewRow(row: Row, role: int, config: M.Config, runId: Identifier, p: Policy, seen: set<int>)
    returns (result: Option<(Node, set<LocalIssue>)>)
    requires ValidPolicy(p)
    ensures result.Some? <==> RowReviewable(row, role, config, runId)
                              && row.before.nonce !in seen && row.after.nonce !in seen
                                && row.before.nonce != row.after.nonce
    ensures result.Some? ==> result.value == (NodeOf(row, p), LocalIssues(row, p))
  {
    hide M.Reviewed, NodeOf, ProbeIssues, ClientIssues, Genuine;
    if row.role != role { return None; }
    var checked := M.Review(row.measurement, config);
    if checked.None? { return None; }
    var first := Assess(row.before, ChecksOf(p));
    if first.None? || row.before.runId != runId || row.before.nonce in seen { return None; }
    var last := Assess(row.after, ChecksOf(p));
    if last.None? || row.after.runId != runId || row.after.nonce in seen + {row.before.nonce} { return None; }
    if !Follows(row.before, row.after) { return None; }
    var local := set i | i in first.value + last.value :: Clock(i);
    if Disagreement(row.before.node, row.after.node) > p.maxWallChange { local := local + {NodeWallChange}; }
    if OffsetChange(row) > p.maxOffsetChange { local := local + {OffsetChangeLimit}; }
    TwoClients(row.measurement, config);
    var node, probed := ReviewProbe(row, checked.value, p);
    assert local + probed == LocalIssues(row, p);
    result := Some((node, local + probed));
  }

  lemma TwoClients(r: M.Receipt, c: M.Config)
    requires M.Reviewed(r, c)
    ensures |r.load.activity| == 2
  {
  }

  // ---- The cohort ----

  function Nodes(rows: seq<Row>, p: Policy): (r: seq<Node>)
    ensures |r| == |rows|
  {
    seq(|rows|, i requires 0 <= i < |rows| => NodeOf(rows[i], p))
  }

  /** The roles with local issues, in order. */
  function FlaggedTo(rows: seq<Row>, k: nat, p: Policy): seq<Flagged>
    requires k <= |rows|
  {
    if k == 0 then []
    else FlaggedTo(rows, k - 1, p)
         + (if LocalIssues(rows[k - 1], p) == {} then [] else [Flagged(rows[k - 1].role, LocalIssues(rows[k - 1], p))])
  }

  /** The coordinator stamps of the first k rows, in collection order within each row. */
  function StampsTo(rows: seq<Row>, k: nat): (r: seq<Stamp>)
    requires k <= |rows|
    ensures k > 0 ==> |r| > 0
  {
    if k == 0 then []
    else
      var row := rows[k - 1];
      StampsTo(rows, k - 1) + [row.before.before, row.before.after, row.after.before, row.after.after]
  }

  /** The first stamp whose earlier monotonic read is least. */
  ghost predicate IsAnchor(stamps: seq<Stamp>, k: nat) {
    && k < |stamps|
    && (forall j :: 0 <= j < |stamps| ==> stamps[k].monoBefore <= stamps[j].monoBefore)
    && (forall j :: 0 <= j < k ==> stamps[k].monoBefore < stamps[j].monoBefore)
  }

  method Anchor(stamps: seq<Stamp>) returns (k: nat)
    requires |stamps| > 0
    ensures IsAnchor(stamps, k)
  {
    k := 0;
    for i := 1 to |stamps|
      invariant k < i
      invariant forall j :: 0 <= j < i ==> stamps[k].monoBefore <= stamps[j].monoBefore
      invariant forall j :: 0 <= j < k ==> stamps[k].monoBefore < stamps[j].monoBefore
    {
      if stamps[i].monoBefore < stamps[k].monoBefore { k := i; }
    }
  }

  method CoordinatorChanged(stamps: seq<Stamp>, anchor: Stamp, mapping: int) returns (changed: bool)
    ensures changed <==> Changed(stamps, anchor, mapping)
  {
    for i := 0 to |stamps|
      invariant forall j :: 0 <= j < i ==> Disagreement(anchor, stamps[j]) <= mapping
    {
      if Disagreement(anchor, stamps[i]) > mapping { return true; }
    }
    changed := false;
  }

  function Ends(stamps: seq<Stamp>): (r: seq<int>)
    ensures |r| == |stamps|
  {
    seq(|stamps|, i requires 0 <= i < |stamps| => stamps[i].monoAfter)
  }

  function StartHighs(nodes: seq<Node>): (r: seq<int>)
    ensures |r| == |nodes|
  {
    seq(|nodes|, i requires 0 <= i < |nodes| => nodes[i].start.hi)
  }

  function EndLows(nodes: seq<Node>): (r: seq<int>)
    ensures |r| == |nodes|
  {
    seq(|nodes|, i requires 0 <= i < |nodes| => nodes[i].end.lo)
  }

  ghost predicate Rivals(nodes: seq<Node>, a: int, b: int) {
    0 <= a < |nodes| && 0 <= b < |nodes| && nodes[a].role != nodes[b].role
  }

  ghost function Gap(nodes: seq<Node>, a: int, b: int): int
    requires Rivals(nodes, a, b)
  {
    nodes[a].start.hi - nodes[b].start.lo
  }

  /** The widest start difference of two different roles that their intervals allow. */
  ghost predicate IsSkew(skew: int, nodes: seq<Node>) {
    && (forall a, b :: Rivals(nodes, a, b) ==> Gap(nodes, a, b) <= skew)
    && exists a, b :: Rivals(nodes, a, b) && skew == Gap(nodes, a, b)
  }

  function CommonOf(nodes: seq<Node>): int
    requires |nodes| > 0
  {
    Max(0, MinOf(EndLows(nodes)) - MaxOf(StartHighs(nodes)))
  }

  method PairwiseSkew(nodes: seq<Node>) returns (skew: int)
    requires |nodes| > 1 && nodes[0].role != nodes[1].role
    ensures IsSkew(skew, nodes)
  {
    assert Rivals(nodes, 0, 1);
    skew := nodes[0].start.hi - nodes[1].start.lo;
    ghost var x, y := 0, 1;
    for a := 0 to |nodes|
      invariant Rivals(nodes, x, y) && skew == Gap(nodes, x, y)
      invariant forall c, d :: Rivals(nodes, c, d) && c < a ==> Gap(nodes, c, d) <= skew
    {
      for b := 0 to |nodes|
        invariant Rivals(nodes, x, y) && skew == Gap(nodes, x, y)
        invariant forall c, d :: Rivals(nodes, c, d) && (c < a || (c == a && d < b)) ==> Gap(nodes, c, d) <= skew
      {
        if nodes[a].role != nodes[b].role && nodes[a].start.hi - nodes[b].start.lo > skew {
          x, y, skew := a, b, nodes[a].start.hi - nodes[b].start.lo;
        }
      }
    }
  }

  function CohortIssuesOf(changed: bool, o: Overlap, p: Policy): seq<CohortIssue> {
    (if o.span > p.maxCollectionSpan then [CollectionSpanLimit] else [])
    + (if changed then [CoordinatorWallChanged] else [])
    + (if o.skew > p.maxStartSkew then [StartSkewLimit] else [])
    + (if o.common < p.minCommonWindow then [CommonWindowTooShort] else [])
  }

  ghost predicate Changed(stamps: seq<Stamp>, anchor: Stamp, mapping: int) {
    exists j :: 0 <= j < |stamps| && Disagreement(anchor, stamps[j]) > mapping
  }

  /** Span and cohort issues, judged from the given anchor. */
  ghost predicate JudgedFrom(o: Overlap, stamps: seq<Stamp>, anchor: Stamp, p: Policy)
    requires |stamps| > 0
  {
    && o.span == MaxOf(Ends(stamps)) - anchor.monoBefore
    && o.cohortIssues == CohortIssuesOf(Changed(stamps, anchor, p.maxWallChange), o, p)
  }

  ghost predicate Judged(o: Overlap, stamps: seq<Stamp>, p: Policy)
    requires |stamps| > 0
  {
    exists k: nat :: IsAnchor(stamps, k) && JudgedFrom(o, stamps, stamps[k], p)
  }

  /** The review of an acceptable cohort, said all at once. */
  ghost predicate IsOverlap(o: Overlap, rows: seq<Row>, runId: Identifier, p: Policy)
    requires |rows| > 0
  {
    && o.runId == runId && o.nodes == Nodes(rows, p) && o.nodeIssues == FlaggedTo(rows, |rows|, p)
    && IsSkew(o.skew, o.nodes) && o.common == CommonOf(o.nodes)
    && Judged(o, StampsTo(rows, |rows|), p)
    && (o.within <==> o.nodeIssues == [] && o.cohortIssues == [])
  }

  lemma NothingReviewed(rows: seq<Row>, p: Policy)
    ensures Distinct(NoncesTo(rows, 0)) && NoncesTo(rows, 0) == [] && FlaggedTo(rows, 0, p) == []
    ensures StampsTo(rows, 0) == []
  {
  }

  lemma AnotherReviewed(rows: seq<Row>, k: nat, p: Policy)
    requires k < |rows|
    ensures var row, local := rows[k], LocalIssues(rows[k], p);
            && FlaggedTo(rows, k + 1, p) == FlaggedTo(rows, k, p)
              + (if local == {} then [] else [Flagged(row.role, local)])
            && StampsTo(rows, k + 1) == StampsTo(rows, k)
              + [row.before.before, row.before.after, row.after.before, row.after.after]
  {
  }

  method ReviewRows(rows: seq<Row>, expected: seq<M.Config>, runId: Identifier, p: Policy)
    returns (ok: bool, nodes: seq<Node>, flagged: seq<Flagged>, stamps: seq<Stamp>)
    requires ValidPolicy(p) && |expected| == |rows|
    ensures ok <==>
      (forall r :: 0 <= r < |rows| ==> RowReviewable(rows[r], r, expected[r], runId))
      && Distinct(NoncesTo(rows, |rows|))
    ensures ok ==> nodes == Nodes(rows, p) && flagged == FlaggedTo(rows, |rows|, p) && stamps == StampsTo(rows, |rows|)
  {
    hide RowReviewable, NodeOf, LocalIssues, Distinct, NoncesTo, FlaggedTo, StampsTo;
    NothingReviewed(rows, p);
    ok, nodes, flagged, stamps := false, [], [], [];
    var nonces := {};
    for role := 0 to |rows|
      invariant forall r :: 0 <= r < role ==> RowReviewable(rows[r], r, expected[r], runId)
      invariant Distinct(NoncesTo(rows, role)) && forall n :: n in nonces <==> n in NoncesTo(rows, role)
      invariant |nodes| == role && forall r :: 0 <= r < role ==> nodes[r] == NodeOf(rows[r], p)
      invariant flagged == FlaggedTo(rows, role, p) && stamps == StampsTo(rows, role)
    {
      var row := rows[role];
      var reviewed := ReviewRow(row, role, expected[role], runId, p, nonces);
      NoncesStep(rows, role);
      AnotherReviewed(rows, role, p);
      if reviewed.None? { return; }
      nonces := nonces + {row.before.nonce, row.after.nonce};
      stamps := stamps + [row.before.before, row.before.after, row.after.before, row.after.after];
      var (node, local) := reviewed.value;
      if local != {} { flagged := flagged + [Flagged(row.role, local)]; }
      nodes := nodes + [node];
      RoleKept(row, role, expected[role], runId);
    }
    ok := true;
  }

  lemma RoleKept(row: Row, role: int, config: M.Config, runId: Identifier)
    requires RowReviewable(row, role, config, runId)
    ensures row.role == role
  {
  }

  /** A row adds its two nonces; the whole list is distinct only if each of its prefixes is. */
  lemma NoncesStep(rows: seq<Row>, k: nat)
    requires k < |rows|
    ensures var before, x, y := NoncesTo(rows, k), rows[k].before.nonce, rows[k].after.nonce;
            && (Distinct(NoncesTo(rows, k + 1)) <==> Distinct(before) && x !in before && y !in before && x != y)
            && (forall n :: n in NoncesTo(rows, k + 1) <==> n in before || n == x || n == y)
    ensures Distinct(NoncesTo(rows, |rows|)) ==> Distinct(NoncesTo(rows, k + 1))
    decreases |rows| - k
  {
    var before, x, y := NoncesTo(rows, k), rows[k].before.nonce, rows[k].after.nonce;
    assert before + [x, y] == before + [x] + [y];
    DistinctSnoc(before, x);
    DistinctSnoc(before + [x], y);
    if k + 1 == |rows| {
    } else {
      NoncesStep(rows, k + 1);
    }
  }

  method JudgeCohort(nodes: seq<Node>, flagged: seq<Flagged>, stamps: seq<Stamp>, runId: Identifier, p: Policy)
    returns (o: Overlap)
    requires |stamps| > 0 && |nodes| > 1 && nodes[0].role != nodes[1].role
    ensures o.runId == runId && o.nodes == nodes && o.nodeIssues == flagged
    ensures IsSkew(o.skew, nodes) && o.common == CommonOf(nodes) && Judged(o, stamps, p)
    ensures o.within <==> flagged == [] && o.cohortIssues == []
  {
    hide IsSkew, Changed, IsAnchor, Ends, EndLows, StartHighs;
    var anchor := Anchor(stamps);
    var span := MaxOf(Ends(stamps)) - stamps[anchor].monoBefore;
    var found := [];
    if span > p.maxCollectionSpan { found := found + [CollectionSpanLimit]; }
    var changed := CoordinatorChanged(stamps, stamps[anchor], p.maxWallChange);
    if changed { found := found + [CoordinatorWallChanged]; }
    var skew := PairwiseSkew(nodes);
    var common := Max(0, MinOf(EndLows(nodes)) - MaxOf(StartHighs(nodes)));
    if skew > p.maxStartSkew { found := found + [StartSkewLimit]; }
    if common < p.minCommonWindow { found := found + [CommonWindowTooShort]; }
    o := Overlap(runId, flagged == [] && found == [], nodes, flagged, found, span, skew, common);
    assert JudgedFrom(o, stamps, stamps[anchor], p);
  }

  method ReviewOverlap(rows: seq<Row>, expected: seq<M.Config>, runId: Identifier, p: Policy)
    returns (review: Option<Overlap>)
    ensures review.Some? <==> Reviewable(rows, expected, runId, p)
    ensures review.Some? ==> IsOverlap(review.value, rows, runId, p)
  {
    hide RowReviewable, IsSkew, NoncesTo, Judged, StampsTo, CommonOf;
    if !ValidPolicy(p) || !(3 <= |rows| <= 5) || !CohortExpected(expected, |rows|) { return None; }
    var ok, nodes, flagged, stamps := ReviewRows(rows, expected, runId, p);
    if !ok { return None; }
    NodeRoles(rows, expected, runId, p);
    var o := JudgeCohort(nodes, flagged, stamps, runId, p);
    review := Some(o);
  }

  lemma NodeRoles(rows: seq<Row>, expected: seq<M.Config>, runId: Identifier, p: Policy)
    requires |expected| == |rows| && forall r :: 0 <= r < |rows| ==> RowReviewable(rows[r], r, expected[r], runId)
    ensures forall r :: 0 <= r < |rows| ==> Nodes(rows, p)[r].role == r
  {
  }
}
