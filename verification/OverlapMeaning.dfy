/**
 What every issue and number of an overlap review says (scripts/pi_lab_results.py:156-250), in terms of the readings it
 was made from: each issue is reported exactly when its own limit is broken, within bounds means that none is, and then
 the true windows keep the policy.
 */
module OverlapMeaning {
  import opened Aggregates
  import opened ClockExchange
  import opened OverlapSoundness
  import opened WindowOverlap
  import M = Measurement
  import Placements

  // ---- The coordinator's stamps ----

  /** The collection's coordinator stamps: four a row, in the order of collection. */
  lemma {:induction false} StampsAre(rows: seq<Row>, n: nat)
    requires n <= |rows|
    ensures |StampsTo(rows, n)| == 4 * n
    ensures forall r :: 0 <= r < n ==>
      && StampsTo(rows, n)[4 * r] == rows[r].before.before && StampsTo(rows, n)[4 * r + 1] == rows[r].before.after
      && StampsTo(rows, n)[4 * r + 2] == rows[r].after.before && StampsTo(rows, n)[4 * r + 3] == rows[r].after.after
  {
    if n == 0 {
    } else {
      StampsAre(rows, n - 1);
    }
  }

  /** Two of them lie further apart than this. */
  ghost predicate Apart(stamps: seq<Stamp>, limit: int) {
    exists i, j :: 0 <= i < |stamps| && 0 <= j < |stamps| && stamps[j].monoAfter - stamps[i].monoBefore > limit
  }

  /** One disagrees with the first of them, for some placement of the two wall reads. */
  ghost predicate Steps(stamps: seq<Stamp>, mapping: int) {
    exists k: nat, j: nat, s, t ::
      && k < |stamps| && Precedes(stamps, k) && j < |stamps| && Placed(stamps[k], s) && Placed(stamps[j], t)
      && Abs((stamps[j].unix - stamps[k].unix) - (t - s)) > mapping
  }

  /** Taken before all others; of two taken at once, collected first. */
  ghost predicate Precedes(stamps: seq<Stamp>, k: nat)
    requires k < |stamps|
  {
    forall j :: 0 <= j < |stamps| && j != k ==>
      stamps[k].monoBefore < stamps[j].monoBefore || (stamps[k].monoBefore == stamps[j].monoBefore && k < j)
  }

  lemma OneAnchor(stamps: seq<Stamp>, k: nat, l: nat)
    requires IsAnchor(stamps, k) && IsAnchor(stamps, l)
    ensures k == l
  {
    AnchorPrecedes(stamps, k);
    AnchorPrecedes(stamps, l);
    var first, second := stamps[k], stamps[l];
  }

  lemma AnchorPrecedes(stamps: seq<Stamp>, k: nat)
    ensures IsAnchor(stamps, k) <==> k < |stamps| && Precedes(stamps, k)
  {
  }

  /** The span is the greatest distance of two stamps. */
  lemma SpanIs(o: Overlap, stamps: seq<Stamp>, p: Policy)
    requires |stamps| > 0 && Judged(o, stamps, p)
    ensures forall i, j :: 0 <= i < |stamps| && 0 <= j < |stamps| ==>
      stamps[j].monoAfter - stamps[i].monoBefore <= o.span
    ensures exists i, j ::
      0 <= i < |stamps| && 0 <= j < |stamps| && stamps[j].monoAfter - stamps[i].monoBefore == o.span
    ensures forall limit :: Apart(stamps, limit) <==> o.span > limit
  {
    var k: nat :| IsAnchor(stamps, k) && JudgedFrom(o, stamps, stamps[k], p);
    var ends := Ends(stamps);
    var j :| 0 <= j < |ends| && ends[j] == MaxOf(ends);
    assert stamps[j].monoAfter - stamps[k].monoBefore == o.span;
    forall i, l | 0 <= i < |stamps| && 0 <= l < |stamps|
      ensures stamps[l].monoAfter - stamps[i].monoBefore <= o.span {
      assert ends[l] <= MaxOf(ends);
    }
    hide Judged, JudgedFrom, IsAnchor, Ends;
  }

  /** A changed coordinator clock is one whose disagreement with the first stamp no placement explains away. */
  lemma ChangedIs(stamps: seq<Stamp>, k: nat, mapping: int)
    requires IsAnchor(stamps, k) && forall j :: 0 <= j < |stamps| ==> ValidStamp(stamps[j])
    ensures Changed(stamps, stamps[k], mapping) <==> Steps(stamps, mapping)
  {
    hide ValidStamp, Disagreement;
    forall j: nat | j < |stamps|
      ensures Disagreement(stamps[k], stamps[j]) > mapping <==> exists s, t ::
        && Placed(stamps[k], s) && Placed(stamps[j], t)
        && Abs((stamps[j].unix - stamps[k].unix) - (t - s)) > mapping
    {
      DisagreementOverPlacements(stamps[k], stamps[j], mapping);
    }
    forall l: nat ensures IsAnchor(stamps, l) <==> l < |stamps| && Precedes(stamps, l) { AnchorPrecedes(stamps, l); }
    forall l: nat | IsAnchor(stamps, l) ensures l == k { OneAnchor(stamps, k, l); }
    hide IsAnchor, Precedes;
  }

  // ---- The cohort's issues ----

  /** Two different nodes may have started further apart than this. */
  ghost predicate StartsApart(nodes: seq<Node>, limit: int) {
    exists a, b :: 0 <= a < |nodes| && 0 <= b < |nodes| && a != b && nodes[a].start.hi - nodes[b].start.lo > limit
  }

  /** Some stretch of reference time of this length lies inside every node's window, wherever its ends fell. */
  ghost predicate Shares(nodes: seq<Node>, length: int) {
    exists from :: Inside(nodes, from, length)
  }

  ghost predicate Inside(nodes: seq<Node>, from: int, length: int) {
    forall r :: 0 <= r < |nodes| ==> nodes[r].start.hi <= from && from + length <= nodes[r].end.lo
  }

  lemma CommonIs(nodes: seq<Node>, length: int)
    requires |nodes| > 0 && 0 < length
    ensures Shares(nodes, length) <==> length <= CommonOf(nodes)
  {
    var ends, starts := EndLows(nodes), StartHighs(nodes);
    var i :| 0 <= i < |ends| && ends[i] == MinOf(ends);
    var j :| 0 <= j < |starts| && starts[j] == MaxOf(starts);
    if length <= CommonOf(nodes) {
      forall r | 0 <= r < |nodes|
        ensures nodes[r].start.hi <= MaxOf(starts) && MaxOf(starts) + length <= nodes[r].end.lo {
        assert starts[r] <= MaxOf(starts) && MinOf(ends) <= ends[r];
      }
      assert Inside(nodes, MaxOf(starts), length);
    }
    if from :| Inside(nodes, from, length) {
      assert nodes[i].end.lo == MinOf(ends) && nodes[j].start.hi == MaxOf(starts);
    }
  }

  lemma SkewIs(nodes: seq<Node>, skew: int, limit: int)
    requires IsSkew(skew, nodes) && forall r :: 0 <= r < |nodes| ==> nodes[r].role == r
    ensures StartsApart(nodes, limit) <==> skew > limit
  {
    if a, b :| 0 <= a < |nodes| && 0 <= b < |nodes| && a != b && nodes[a].start.hi - nodes[b].start.lo > limit {
      assert Rivals(nodes, a, b) && Gap(nodes, a, b) <= skew;
    }
    if skew > limit {
      var a, b :| Rivals(nodes, a, b) && skew == Gap(nodes, a, b);
      assert nodes[a].start.hi - nodes[b].start.lo > limit;
    }
  }

  /** Each cohort issue is reported exactly when its own limit is broken, in the source's order and once. */
  ghost predicate CohortIssuesMean(o: Overlap, stamps: seq<Stamp>, p: Policy) {
    && (CollectionSpanLimit in o.cohortIssues <==> Apart(stamps, p.maxCollectionSpan))
    && (CoordinatorWallChanged in o.cohortIssues <==> Steps(stamps, p.maxWallChange))
    && (StartSkewLimit in o.cohortIssues <==> StartsApart(o.nodes, p.maxStartSkew))
    && (CommonWindowTooShort in o.cohortIssues <==> !Shares(o.nodes, p.minCommonWindow))
    && Distinct(o.cohortIssues)
  }

  /** The same, in the numbers reported. */
  ghost predicate CohortIssuesCount(o: Overlap, p: Policy) {
    && (CollectionSpanLimit in o.cohortIssues <==> o.span > p.maxCollectionSpan)
    && (StartSkewLimit in o.cohortIssues <==> o.skew > p.maxStartSkew)
    && (CommonWindowTooShort in o.cohortIssues <==> o.common < p.minCommonWindow)
  }

  lemma FoundAre(changed: bool, o: Overlap, p: Policy)
    ensures var found := CohortIssuesOf(changed, o, p);
      && (CollectionSpanLimit in found <==> o.span > p.maxCollectionSpan)
      && (CoordinatorWallChanged in found <==> changed)
      && (StartSkewLimit in found <==> o.skew > p.maxStartSkew)
      && (CommonWindowTooShort in found <==> o.common < p.minCommonWindow)
      && Distinct(found)
  {
  }

  lemma JudgedMeans(o: Overlap, stamps: seq<Stamp>, p: Policy)
    requires |stamps| > 0 && Judged(o, stamps, p)
    requires forall j :: 0 <= j < |stamps| ==> ValidStamp(stamps[j])
    ensures CohortIssuesCount(o, p) && Distinct(o.cohortIssues)
    ensures CollectionSpanLimit in o.cohortIssues <==> Apart(stamps, p.maxCollectionSpan)
    ensures CoordinatorWallChanged in o.cohortIssues <==> Steps(stamps, p.maxWallChange)
  {
    hide Changed, CohortIssuesOf, ValidStamp, Steps, Apart;
    SpanIs(o, stamps, p);
    var k: nat :| IsAnchor(stamps, k) && JudgedFrom(o, stamps, stamps[k], p);
    FoundAre(Changed(stamps, stamps[k], p.maxWallChange), o, p);
    hide IsAnchor;
    ChangedIs(stamps, k, p.maxWallChange);
  }

  lemma CohortIssuesReportedIff(rows: seq<Row>, expected: seq<M.Config>, runId: Identifier, p: Policy, o: Overlap)
    requires Reviewable(rows, expected, runId, p) && IsOverlap(o, rows, runId, p)
    ensures CohortIssuesMean(o, StampsTo(rows, |rows|), p) && CohortIssuesCount(o, p)
  {
    OverlapFacts(rows, expected, runId, p, o);
    assert 0 < p.minCommonWindow && |o.nodes| == |rows|;
    StampsAre(rows, |rows|);
    Placements.StampsValid(rows, expected, runId, p);
    assert Judged(o, StampsTo(rows, |rows|), p);
    hide *;
    JudgedMeans(o, StampsTo(rows, |rows|), p);
    SkewIs(o.nodes, o.skew, p.maxStartSkew);
    CommonIs(o.nodes, p.minCommonWindow);
    IssuesMean(o, StampsTo(rows, |rows|), p);
  }

  lemma IssuesMean(o: Overlap, stamps: seq<Stamp>, p: Policy)
    requires CohortIssuesCount(o, p) && Distinct(o.cohortIssues) && |o.nodes| > 0
    requires CollectionSpanLimit in o.cohortIssues <==> Apart(stamps, p.maxCollectionSpan)
    requires CoordinatorWallChanged in o.cohortIssues <==> Steps(stamps, p.maxWallChange)
    requires StartsApart(o.nodes, p.maxStartSkew) <==> o.skew > p.maxStartSkew
    requires Shares(o.nodes, p.minCommonWindow) <==> p.minCommonWindow <= CommonOf(o.nodes)
    requires o.common == CommonOf(o.nodes)
    ensures CohortIssuesMean(o, stamps, p)
  {
    hide Apart, Steps, StartsApart, Shares, CommonOf;
  }

  /** The three numbers are exactly the limits the readings break or keep. */
  lemma NumbersAre(rows: seq<Row>, expected: seq<M.Config>, runId: Identifier, p: Policy, o: Overlap)
    requires Reviewable(rows, expected, runId, p) && IsOverlap(o, rows, runId, p)
    ensures forall limit :: Apart(StampsTo(rows, |rows|), limit) <==> limit < o.span
    ensures forall limit :: StartsApart(o.nodes, limit) <==> limit < o.skew
    ensures 0 <= o.common && forall length :: 0 < length ==> (Shares(o.nodes, length) <==> length <= o.common)
  {
    OverlapFacts(rows, expected, runId, p, o);
    StampsAre(rows, |rows|);
    assert Judged(o, StampsTo(rows, |rows|), p) && o.nodes == Nodes(rows, p) && 0 <= CommonOf(o.nodes);
    hide *;
    SpanIs(o, StampsTo(rows, |rows|), p);
    forall limit ensures StartsApart(o.nodes, limit) <==> limit < o.skew { SkewIs(o.nodes, o.skew, limit); }
    forall length | 0 < length ensures Shares(o.nodes, length) <==> length <= o.common { CommonIs(o.nodes, length); }
  }

  // ---- One node's issues ----

  /** What a mark's wall instant can be, once the wall may have run on by the mapping allowance since it was read. */
  ghost predicate MayMark(m: M.Mark, mapping: int, wall: int) {
    m.unix <= wall <= m.unix + m.readBracket + mapping
  }

  /** The window's first or last instant may lie outside these bounds by more than the allowance. */
  ghost predicate MayLeave(row: Row, mapping: int, from: int, to: int) {
    || (exists wall :: MayMark(row.measurement.load.timing.start, mapping, wall) && wall < from - mapping)
    || (exists wall :: MayMark(row.measurement.load.timing.endMarker, mapping, wall) && wall > to + mapping)
  }

  /** One exchange's offset is above another's by more than the limit, wherever each lies in its interval. */
  ghost predicate OffsetsPart(row: Row, limit: int) {
    exists x, y :: x in {row.before, row.after} && y in {row.before, row.after} && x.offset.lo > y.offset.hi + limit
  }

  ghost predicate MarksDisagree(t: M.Timing, mapping: int) {
    exists first, last :: M.InMark(t.start, first) && M.InMark(t.endMarker, last)
                          && Abs(last - first - t.endMarkerElapsed) > mapping
  }

  ghost predicate WallsDisagree(first: Stamp, last: Stamp, mapping: int) {
    exists s, t :: Placed(first, s) && Placed(last, t) && Abs((last.unix - first.unix) - (t - s)) > mapping
  }

  predicate Timed(c: M.Client) { c.first.Some? && c.last.Some? }

  ghost predicate SomeUntimed(row: Row) { exists c :: c in row.measurement.load.activity && !Timed(c) }

  ghost predicate SomeLate(row: Row, limit: int) {
    exists c :: c in row.measurement.load.activity && Timed(c) && c.first.value > limit
  }

  ghost predicate SomeEarly(row: Row, limit: int) {
    exists c :: c in row.measurement.load.activity && Timed(c) && c.last.value < limit
  }

  /** Each issue of a node is reported exactly when its own limit is broken. */
  ghost predicate LocalIssuesMean(row: Row, issues: set<LocalIssue>, p: Policy) {
    var load := row.measurement.load;
    && (forall i :: Clock(i) in issues <==> i in Issues(row.before, ChecksOf(p)) || i in Issues(row.after, ChecksOf(p)))
    && (NodeWallChange in issues <==> WallsDisagree(row.before.node, row.after.node, p.maxWallChange))
    && (OffsetChangeLimit in issues <==> OffsetsPart(row, p.maxOffsetChange))
    && (ProbeWallChange in issues <==> MarksDisagree(load.timing, p.maxWallChange))
    && (ProbeOutsideClockBracket in issues <==>
          MayLeave(row, p.maxWallChange, row.before.node.unix, row.after.node.unix))
    && (ProbeOutsideSupervisorBracket in issues <==>
          MayLeave(row, p.maxWallChange, row.measurement.start, row.measurement.end))
    && (NoTimedActivity in issues <==> SomeUntimed(row))
    && (FirstRequestLate in issues <==> SomeLate(row, p.maxFirstRequest))
    && (LastCompletionEarly in issues <==> SomeEarly(row, p.minLastCompletion))
  }

  lemma LeavingIs(row: Row, mapping: int, from: int, to: int)
    requires M.ValidTiming(row.measurement.load.timing) && 0 <= mapping
    ensures var t := row.measurement.load.timing;
      MayLeave(row, mapping, from, to) <==>
        t.start.unix < from - mapping || t.endMarker.unix + t.endMarker.readBracket + mapping > to + mapping
  {
    var t := row.measurement.load.timing;
    assert MayMark(t.start, mapping, t.start.unix);
    assert MayMark(t.endMarker, mapping, t.endMarker.unix + t.endMarker.readBracket + mapping);
  }

  lemma ProbeIssuesMean(row: Row, p: Policy)
    requires M.ValidTiming(row.measurement.load.timing) && 0 <= p.maxWallChange
    ensures var found, t := ProbeIssues(row, p), row.measurement.load.timing;
      && (ProbeWallChange in found <==> MarksDisagree(t, p.maxWallChange))
      && (ProbeOutsideClockBracket in found <==>
            MayLeave(row, p.maxWallChange, row.before.node.unix, row.after.node.unix))
      && (ProbeOutsideSupervisorBracket in found <==>
            MayLeave(row, p.maxWallChange, row.measurement.start, row.measurement.end))
      && found <= {ProbeWallChange, ProbeOutsideClockBracket, ProbeOutsideSupervisorBracket}
  {
    M.WallChangeIsTight(row.measurement.load.timing, p.maxWallChange);
    LeavingIs(row, p.maxWallChange, row.before.node.unix, row.after.node.unix);
    LeavingIs(row, p.maxWallChange, row.measurement.start, row.measurement.end);
    hide MayLeave;
  }

  lemma ClientIssuesMean(c: M.Client, p: Policy)
    ensures var found, timed := ClientIssues(c, p), Timed(c);
      && (NoTimedActivity in found <==> !timed)
      && (FirstRequestLate in found <==> timed && c.first.value > p.maxFirstRequest)
      && (LastCompletionEarly in found <==> timed && c.last.value < p.minLastCompletion)
      && found <= {NoTimedActivity, FirstRequestLate, LastCompletionEarly}
  {
  }

  lemma AllClientIssues(row: Row, p: Policy)
    ensures var found := set c, i | c in row.measurement.load.activity && i in ClientIssues(c, p) :: i;
      && (NoTimedActivity in found <==> SomeUntimed(row))
      && (FirstRequestLate in found <==> SomeLate(row, p.maxFirstRequest))
      && (LastCompletionEarly in found <==> SomeEarly(row, p.minLastCompletion))
      && found <= {NoTimedActivity, FirstRequestLate, LastCompletionEarly}
  {
    forall c ensures var found, timed := ClientIssues(c, p), Timed(c);
      && (NoTimedActivity in found <==> !timed)
      && (FirstRequestLate in found <==> timed && c.first.value > p.maxFirstRequest)
      && (LastCompletionEarly in found <==> timed && c.last.value < p.minLastCompletion)
      && found <= {NoTimedActivity, FirstRequestLate, LastCompletionEarly}
    {
      ClientIssuesMean(c, p);
    }
    hide ClientIssues;
  }

  lemma OffsetsPartIs(row: Row, limit: int)
    ensures OffsetChange(row) > limit <==> OffsetsPart(row, limit)
  {
    assert row.before in {row.before, row.after} && row.after in {row.before, row.after};
  }

  lemma WallsDisagreeIs(first: Stamp, last: Stamp, mapping: int)
    requires ValidStamp(first) && ValidStamp(last)
    ensures Disagreement(first, last) > mapping <==> WallsDisagree(first, last, mapping)
  {
    hide Disagreement, ValidStamp;
    DisagreementOverPlacements(first, last, mapping);
  }

  lemma LocalIssuesReportedIff(row: Row, p: Policy)
    requires Genuine(row.before) && Genuine(row.after) && M.ValidTiming(row.measurement.load.timing)
    requires 0 <= p.maxWallChange
    ensures LocalIssuesMean(row, LocalIssues(row, p), p)
  {
    assert ValidStamp(row.before.node) && ValidStamp(row.after.node);
    var probed := ProbeIssues(row, p);
    var timed := set c, i | c in row.measurement.load.activity && i in ClientIssues(c, p) :: i;
    hide *;
    ProbeIssuesMean(row, p);
    AllClientIssues(row, p);
    OffsetsPartIs(row, p.maxOffsetChange);
    WallsDisagreeIs(row.before.node, row.after.node, p.maxWallChange);
    PutTogether(row, p, probed, timed);
    Mean(row, LocalIssues(row, p), probed, timed, p);
  }

  lemma Mean(row: Row, issues: set<LocalIssue>, probed: set<LocalIssue>, timed: set<LocalIssue>, p: Policy)
    requires forall i :: Clock(i) in issues <==>
      i in Issues(row.before, ChecksOf(p)) || i in Issues(row.after, ChecksOf(p))
    requires NodeWallChange in issues <==> WallsDisagree(row.before.node, row.after.node, p.maxWallChange)
    requires OffsetChangeLimit in issues <==> OffsetsPart(row, p.maxOffsetChange)
    requires ProbeWallChange in issues <==> ProbeWallChange in probed
    requires ProbeOutsideClockBracket in issues <==> ProbeOutsideClockBracket in probed
    requires ProbeOutsideSupervisorBracket in issues <==> ProbeOutsideSupervisorBracket in probed
    requires NoTimedActivity in issues <==> NoTimedActivity in timed
    requires FirstRequestLate in issues <==> FirstRequestLate in timed
    requires LastCompletionEarly in issues <==> LastCompletionEarly in timed
    requires ProbeWallChange in probed <==> MarksDisagree(row.measurement.load.timing, p.maxWallChange)
    requires ProbeOutsideClockBracket in probed <==>
      MayLeave(row, p.maxWallChange, row.before.node.unix, row.after.node.unix)
    requires ProbeOutsideSupervisorBracket in probed <==>
      MayLeave(row, p.maxWallChange, row.measurement.start, row.measurement.end)
    requires NoTimedActivity in timed <==> SomeUntimed(row)
    requires FirstRequestLate in timed <==> SomeLate(row, p.maxFirstRequest)
    requires LastCompletionEarly in timed <==> SomeEarly(row, p.minLastCompletion)
    ensures LocalIssuesMean(row, issues, p)
  {
    hide Issues, WallsDisagree, OffsetsPart, MarksDisagree, MayLeave, SomeUntimed, SomeLate, SomeEarly;
  }

  lemma PutTogether(row: Row, p: Policy, probed: set<LocalIssue>, timed: set<LocalIssue>)
    requires probed == ProbeIssues(row, p)
    requires timed == set c, i | c in row.measurement.load.activity && i in ClientIssues(c, p) :: i
    requires probed <= {ProbeWallChange, ProbeOutsideClockBracket, ProbeOutsideSupervisorBracket}
    requires timed <= {NoTimedActivity, FirstRequestLate, LastCompletionEarly}
    ensures var found := LocalIssues(row, p);
      && (forall i :: Clock(i) in found <==>
            i in Issues(row.before, ChecksOf(p)) || i in Issues(row.after, ChecksOf(p)))
      && (NodeWallChange in found <==> Disagreement(row.before.node, row.after.node) > p.maxWallChange)
      && (OffsetChangeLimit in found <==> OffsetChange(row) > p.maxOffsetChange)
      && (ProbeWallChange in found <==> ProbeWallChange in probed)
      && (ProbeOutsideClockBracket in found <==> ProbeOutsideClockBracket in probed)
      && (ProbeOutsideSupervisorBracket in found <==> ProbeOutsideSupervisorBracket in probed)
      && (NoTimedActivity in found <==> NoTimedActivity in timed)
      && (FirstRequestLate in found <==> FirstRequestLate in timed)
      && (LastCompletionEarly in found <==> LastCompletionEarly in timed)
  {
    hide Issues, ProbeIssues, ClientIssues, Disagreement, OffsetChange;
  }

  // ---- One node's numbers ----

  /** Some offset of the two exchanges' joint range is within the allowed change of this one. */
  ghost predicate OffsetPossible(row: Row, change: int, offset: int) {
    exists seen :: SeenOffset(row, seen) && Abs(offset - seen) <= change
  }

  ghost predicate SeenOffset(row: Row, offset: int) {
    && Min(row.before.offset.lo, row.after.offset.lo) <= offset <= Max(row.before.offset.hi, row.after.offset.hi)
  }

  /** The window may have started at this reference time: some wall instant of the start mark less some offset. */
  ghost predicate StartPossible(row: Row, p: Policy, time: int) {
    exists wall, offset ::
      && MayMark(row.measurement.load.timing.start, p.maxWallChange, wall)
      && OffsetPossible(row, p.maxOffsetChange, offset) && time == wall - offset
  }

  /** The end mark came its lateness after the window's end, give or take the allowance. */
  ghost predicate MayEnd(t: M.Timing, mapping: int, wall: int) {
    exists marked :: MayMark(t.endMarker, mapping, marked)
                     && Abs(marked - wall - (t.endMarkerElapsed - M.WINDOW)) <= mapping
  }

  ghost predicate EndPossible(row: Row, p: Policy, time: int) {
    exists wall, offset ::
      && MayEnd(row.measurement.load.timing, p.maxWallChange, wall)
      && OffsetPossible(row, p.maxOffsetChange, offset) && time == wall - offset
  }

  /** The emitted intervals hold exactly the times and offsets the readings leave possible. */
  ghost predicate NodeMeans(node: Node, row: Row, p: Policy) {
    && node.role == row.role && node.activity == row.measurement.load.activity
    && node.measurementIssues == row.measurement.issues
    && node.lateness == row.measurement.load.timing.endMarkerElapsed - M.WINDOW
    && (forall offset :: node.offset.lo <= offset <= node.offset.hi <==> OffsetPossible(row, p.maxOffsetChange, offset))
    && (forall time :: node.start.lo <= time <= node.start.hi <==> StartPossible(row, p, time))
    && (forall time :: node.end.lo <= time <= node.end.hi <==> EndPossible(row, p, time))
  }

  lemma OffsetsAre(row: Row, p: Policy, offset: int)
    requires SeenOffset(row, row.before.offset.lo) && 0 <= p.maxOffsetChange
    ensures NodeOf(row, p).offset.lo <= offset <= NodeOf(row, p).offset.hi <==>
      OffsetPossible(row, p.maxOffsetChange, offset)
  {
    var lo, hi := Min(row.before.offset.lo, row.after.offset.lo), Max(row.before.offset.hi, row.after.offset.hi);
    var seen := if offset < lo then lo else if offset > hi then hi else offset;
    assert SeenOffset(row, seen);
  }

  lemma StartsAre(row: Row, p: Policy, time: int)
    requires 0 <= row.measurement.load.timing.start.readBracket + p.maxWallChange
    requires forall f :: NodeOf(row, p).offset.lo <= f <= NodeOf(row, p).offset.hi <==>
      OffsetPossible(row, p.maxOffsetChange, f)
    requires NodeOf(row, p).offset.lo <= NodeOf(row, p).offset.hi
    ensures NodeOf(row, p).start.lo <= time <= NodeOf(row, p).start.hi <==> StartPossible(row, p, time)
  {
    var mark, e := row.measurement.load.timing.start, NodeOf(row, p).offset;
    hide OffsetPossible;
    if NodeOf(row, p).start.lo <= time <= NodeOf(row, p).start.hi {
      var wall := if time + e.hi < mark.unix + mark.readBracket + p.maxWallChange then time + e.hi
        else mark.unix + mark.readBracket + p.maxWallChange;
      assert MayMark(mark, p.maxWallChange, wall) && OffsetPossible(row, p.maxOffsetChange, wall - time);
    }
  }

  lemma EndsAre(row: Row, p: Policy, time: int)
    requires 0 <= row.measurement.load.timing.endMarker.readBracket && 0 <= p.maxWallChange
    requires forall f :: NodeOf(row, p).offset.lo <= f <= NodeOf(row, p).offset.hi <==>
      OffsetPossible(row, p.maxOffsetChange, f)
    requires NodeOf(row, p).offset.lo <= NodeOf(row, p).offset.hi
    ensures NodeOf(row, p).end.lo <= time <= NodeOf(row, p).end.hi <==> EndPossible(row, p, time)
  {
    var t, e, m := row.measurement.load.timing, NodeOf(row, p).offset, p.maxWallChange;
    var last := t.endMarker.unix + t.endMarker.readBracket + m - (t.endMarkerElapsed - M.WINDOW) + m;
    forall wall { EndWalls(t, m, wall); }
    hide OffsetPossible, MayEnd;
    if NodeOf(row, p).end.lo <= time <= NodeOf(row, p).end.hi {
      var wall := if time + e.hi < last then time + e.hi else last;
      assert MayEnd(t, m, wall) && OffsetPossible(row, p.maxOffsetChange, wall - time);
    }
  }

  lemma EndWalls(t: M.Timing, mapping: int, wall: int)
    requires 0 <= t.endMarker.readBracket && 0 <= mapping
    ensures var late := t.endMarkerElapsed - M.WINDOW;
      MayEnd(t, mapping, wall) <==>
        t.endMarker.unix - mapping <= wall + late <= t.endMarker.unix + t.endMarker.readBracket + 2 * mapping
  {
    var late, mark := t.endMarkerElapsed - M.WINDOW, t.endMarker;
    var marked := if wall + late < mark.unix then mark.unix
      else if wall + late < mark.unix + mark.readBracket + mapping then wall + late
      else mark.unix + mark.readBracket + mapping;
    assert MayMark(mark, mapping, marked);
  }

  /** For every row whose exchanges give an offset at all. */
  lemma NodeIntervalsAreExact(row: Row, p: Policy)
    requires M.ValidTiming(row.measurement.load.timing) && 0 <= p.maxWallChange && 0 <= p.maxOffsetChange
    requires row.before.offset.lo <= row.before.offset.hi && row.after.offset.lo <= row.after.offset.hi
    ensures NodeMeans(NodeOf(row, p), row, p)
  {
    var node := NodeOf(row, p);
    forall f ensures node.offset.lo <= f <= node.offset.hi <==> OffsetPossible(row, p.maxOffsetChange, f) {
      OffsetsAre(row, p, f);
    }
    forall time ensures node.start.lo <= time <= node.start.hi <==> StartPossible(row, p, time) {
      StartsAre(row, p, time);
    }
    forall time ensures node.end.lo <= time <= node.end.hi <==> EndPossible(row, p, time) { EndsAre(row, p, time); }
    hide StartPossible, EndPossible, OffsetPossible;
  }

  // ---- The whole review ----

  /** Exactly the roles with an issue are flagged, each with all of its issues. */
  lemma {:induction false} FlaggedAre(rows: seq<Row>, n: nat, p: Policy)
    requires n <= |rows| && forall r :: 0 <= r < |rows| ==> rows[r].role == r
    ensures forall f :: f in FlaggedTo(rows, n, p) <==>
      0 <= f.role < n && f.issues == LocalIssues(rows[f.role], p) && f.issues != {}
    ensures forall i, j :: 0 <= i < j < |FlaggedTo(rows, n, p)| ==>
      FlaggedTo(rows, n, p)[i].role < FlaggedTo(rows, n, p)[j].role
  {
    hide LocalIssues;
    if n == 0 {
    } else {
      FlaggedAre(rows, n - 1, p);
      var before := FlaggedTo(rows, n - 1, p);
      forall i | 0 <= i < |before| ensures before[i].role < n - 1 { assert before[i] in before; }
    }
  }

  lemma RolesAre(rows: seq<Row>, expected: seq<M.Config>, runId: Identifier, p: Policy)
    requires Reviewable(rows, expected, runId, p)
    ensures forall r :: 0 <= r < |rows| ==> rows[r].role == r && RowReadable(rows[r])
    ensures |rows| > 0 && 0 <= p.maxWallChange && 0 <= p.maxOffsetChange && 0 < p.minCommonWindow
  {
    forall r | 0 <= r < |rows| ensures rows[r].role == r && RowReadable(rows[r]) {
      assert RowReviewable(rows[r], r, expected[r], runId);
      hide Genuine, M.ValidTiming;
    }
    hide CohortExpected, NoncesTo, RowReviewable, RowReadable;
  }

  ghost predicate RowReadable(row: Row) {
    Genuine(row.before) && Genuine(row.after) && M.ValidTiming(row.measurement.load.timing)
  }

  lemma IssuesOfRow(row: Row, p: Policy)
    requires RowReadable(row) && 0 <= p.maxWallChange
    ensures LocalIssuesMean(row, LocalIssues(row, p), p)
  {
    hide LocalIssues, LocalIssuesMean, Genuine, M.ValidTiming;
    LocalIssuesReportedIff(row, p);
  }

  /** Within bounds exactly when no limit of any node and none of the four of the cohort is broken. */
  lemma WithinIff(rows: seq<Row>, expected: seq<M.Config>, runId: Identifier, p: Policy, o: Overlap)
    requires Reviewable(rows, expected, runId, p) && IsOverlap(o, rows, runId, p)
    ensures var stamps := StampsTo(rows, |rows|);
      o.within <==>
        && (forall r :: 0 <= r < |rows| ==> LocalIssues(rows[r], p) == {})
        && !Apart(stamps, p.maxCollectionSpan) && !Steps(stamps, p.maxWallChange)
        && !StartsApart(o.nodes, p.maxStartSkew) && Shares(o.nodes, p.minCommonWindow)
    ensures forall r :: 0 <= r < |rows| ==> LocalIssuesMean(rows[r], LocalIssues(rows[r], p), p)
    ensures forall f :: f in o.nodeIssues <==>
      0 <= f.role < |rows| && f.issues == LocalIssues(rows[f.role], p) && f.issues != {}
    ensures o.within ==> o.span <= p.maxCollectionSpan && o.skew <= p.maxStartSkew && p.minCommonWindow <= o.common
  {
    assert o.nodeIssues == FlaggedTo(rows, |rows|, p) && (o.within <==> o.nodeIssues == [] && o.cohortIssues == []);
    hide *;
    CohortIssuesReportedIff(rows, expected, runId, p, o);
    RolesAre(rows, expected, runId, p);
    FlaggedAre(rows, |rows|, p);
    NobodyFlaggedIff(rows, o.nodeIssues, p);
    forall r | 0 <= r < |rows| ensures LocalIssuesMean(rows[r], LocalIssues(rows[r], p), p) { IssuesOfRow(rows[r], p); }
    NoIssueIs(o.cohortIssues);
    CohortMeans(o, StampsTo(rows, |rows|), p);
  }

  lemma CohortMeans(o: Overlap, stamps: seq<Stamp>, p: Policy)
    requires CohortIssuesMean(o, stamps, p) && CohortIssuesCount(o, p)
    ensures CollectionSpanLimit in o.cohortIssues <==> Apart(stamps, p.maxCollectionSpan)
    ensures CoordinatorWallChanged in o.cohortIssues <==> Steps(stamps, p.maxWallChange)
    ensures StartSkewLimit in o.cohortIssues <==> StartsApart(o.nodes, p.maxStartSkew)
    ensures CommonWindowTooShort in o.cohortIssues <==> !Shares(o.nodes, p.minCommonWindow)
    ensures CollectionSpanLimit in o.cohortIssues <==> o.span > p.maxCollectionSpan
    ensures StartSkewLimit in o.cohortIssues <==> o.skew > p.maxStartSkew
    ensures CommonWindowTooShort in o.cohortIssues <==> o.common < p.minCommonWindow
  {
    hide Apart, Steps, StartsApart, Shares;
  }

  lemma NoIssueIs(issues: seq<CohortIssue>)
    ensures issues == [] <==>
      && CollectionSpanLimit !in issues && CoordinatorWallChanged !in issues && StartSkewLimit !in issues
      && CommonWindowTooShort !in issues
  {
    if issues != [] {
      assert issues[0] in issues;
      match issues[0] {
        case CollectionSpanLimit =>
        case CoordinatorWallChanged =>
        case StartSkewLimit =>
        case CommonWindowTooShort =>
      }
    }
  }

  lemma NobodyFlaggedIff(rows: seq<Row>, flagged: seq<Flagged>, p: Policy)
    requires forall f :: f in flagged <==>
      0 <= f.role < |rows| && f.issues == LocalIssues(rows[f.role], p) && f.issues != {}
    ensures flagged == [] <==> forall r :: 0 <= r < |rows| ==> LocalIssues(rows[r], p) == {}
  {
    hide LocalIssues;
    if flagged != [] { assert flagged[0] in flagged; }
    if flagged == [] {
      forall r | 0 <= r < |rows| ensures LocalIssues(rows[r], p) == {} {
        assert Flagged(r, LocalIssues(rows[r], p)) !in flagged;
      }
    }
  }

  /** What a review reports of each node is what its readings leave possible. */
  lemma NodesAreExact(rows: seq<Row>, expected: seq<M.Config>, runId: Identifier, p: Policy, o: Overlap, r: nat)
    requires Reviewable(rows, expected, runId, p) && IsOverlap(o, rows, runId, p) && r < |rows|
    requires rows[r].before.offset.lo <= rows[r].before.offset.hi && rows[r].after.offset.lo <= rows[r].after.offset.hi
    ensures |o.nodes| == |rows| && NodeMeans(o.nodes[r], rows[r], p)
  {
    OverlapFacts(rows, expected, runId, p, o);
    RolesAre(rows, expected, runId, p);
    assert Nodes(rows, p)[r] == NodeOf(rows[r], p);
    hide Reviewable, IsOverlap, NodeMeans, NodeOf, Genuine, M.ValidTiming;
    NodeIntervalsAreExact(rows[r], p);
  }

  /**
   Within bounds, for any clocks within the three assumptions: a stretch of reference time as long as the policy asks
   for lies inside every true window, and no two windows start further apart than the policy allows.
   */
  lemma WithinQualifies(rows: seq<Row>, expected: seq<M.Config>, runId: Identifier, p: Policy, o: Overlap,
                        c: Clock, scenes: seq<Scene>, span: Span)
    returns (from: int)
    requires Reviewable(rows, expected, runId, p) && IsOverlap(o, rows, runId, p) && o.within
    requires CohortWitnessed(rows, c, scenes, span, p)
    ensures |scenes| == |rows| && forall r :: 0 <= r < |rows| ==>
      c(scenes[r].started) <= from as real && (from + p.minCommonWindow) as real <= c(scenes[r].closed)
    ensures forall a, b :: 0 <= a < |rows| && 0 <= b < |rows| && a != b ==>
      RealAbs(c(scenes[a].started) - c(scenes[b].started)) <= p.maxStartSkew as real
  {
    assert |scenes| == |rows|;
    hide Reviewable, IsOverlap, CohortWitnessed, LocalIssuesMean, LocalIssues, RealAbs;
    WithinIff(rows, expected, runId, p, o);
    RolesAre(rows, expected, runId, p);
    from := CommonWindowSound(rows, expected, runId, p, o, c, scenes, span);
    forall a, b | 0 <= a < |rows| && 0 <= b < |rows| && a != b
      ensures RealAbs(c(scenes[a].started) - c(scenes[b].started)) <= p.maxStartSkew as real
    {
      StartSkewSound(rows, expected, runId, p, o, c, scenes, span, a, b);
    }
  }

  // ---- What is reviewed at all ----

  ghost predicate OneNonceEach(rows: seq<Row>) {
    forall r, s :: 0 <= r < |rows| && 0 <= s < |rows| ==>
      && rows[r].before.nonce != rows[s].after.nonce
      && (r != s ==> rows[r].before.nonce != rows[s].before.nonce && rows[r].after.nonce != rows[s].after.nonce)
  }

  /** Both exchanges of this run, the first over on both machines before the second began. */
  ghost predicate TakenInOrder(row: Row, runId: Identifier) {
    && row.before.runId == row.after.runId == runId
    && row.before.after.monoAfter <= row.after.before.monoBefore
    && row.before.node.monoAfter <= row.after.node.monoBefore
  }

  /** One formation of this many distinct nodes. */
  ghost predicate OneFormation(expected: seq<M.Config>, workers: int) {
    && |expected| == workers
    && forall r, s :: 0 <= r < workers && 0 <= s < workers ==>
         && M.ValidConfig(expected[r]) && expected[r].role == r && expected[r].workers == workers
         && expected[r].target.formation == expected[s].target.formation
         && (r != s ==> expected[r].target.node != expected[s].target.node)
  }

  lemma {:induction false} NoncesAre(rows: seq<Row>, n: nat)
    requires n <= |rows|
    ensures forall x :: x in NoncesTo(rows, n) <==>
      exists r :: 0 <= r < n && (x == rows[r].before.nonce || x == rows[r].after.nonce)
    ensures Distinct(NoncesTo(rows, n)) <==> OneNonceEach(rows[..n])
  {
    if n == 0 {
    } else {
      NoncesAre(rows, n - 1);
      var before, x, y := NoncesTo(rows, n - 1), rows[n - 1].before.nonce, rows[n - 1].after.nonce;
      assert NoncesTo(rows, n) == before + [x] + [y];
      DistinctSnoc(before, x);
      DistinctSnoc(before + [x], y);
      OneMoreNonces(rows, n);
      hide NoncesTo, OneNonceEach, Distinct;
    }
  }

  lemma OneMoreNonces(rows: seq<Row>, n: nat)
    requires 0 < n <= |rows|
    ensures var x, y := rows[n - 1].before.nonce, rows[n - 1].after.nonce;
      OneNonceEach(rows[..n]) <==>
        && OneNonceEach(rows[..n - 1]) && x != y
        && forall r :: 0 <= r < n - 1 ==>
             rows[r].before.nonce != x && rows[r].after.nonce != x
             && rows[r].before.nonce != y && rows[r].after.nonce != y
  {
    var all, shorter := rows[..n], rows[..n - 1];
    assert forall r :: 0 <= r < n - 1 ==> all[r] == rows[r] == shorter[r];
    assert all[n - 1] == rows[n - 1];
  }

  /** A cohort is reviewed exactly when its evidence is genuine, its own, in order and used once. */
  lemma ReviewableIff(rows: seq<Row>, expected: seq<M.Config>, runId: Identifier, p: Policy)
    ensures Reviewable(rows, expected, runId, p) <==>
      && ValidPolicy(p) && 3 <= |rows| <= 5 && OneFormation(expected, |rows|) && OneNonceEach(rows)
      && forall r :: 0 <= r < |rows| ==>
           && rows[r].role == r && M.Reviewed(rows[r].measurement, expected[r])
           && Genuine(rows[r].before) && Genuine(rows[r].after) && TakenInOrder(rows[r], runId)
  {
    NoncesAre(rows, |rows|);
    assert rows[..|rows|] == rows;
    hide M.Reviewed, Genuine, M.ValidConfig, NoncesTo, Distinct, OneNonceEach, ValidPolicy;
    if |expected| == |rows| {
      forall r | 0 <= r < |rows| ensures RowReviewable(rows[r], r, expected[r], runId) <==>
        && rows[r].role == r && M.Reviewed(rows[r].measurement, expected[r])
        && Genuine(rows[r].before) && Genuine(rows[r].after) && TakenInOrder(rows[r], runId) { }
      FormationIs(expected, |rows|);
    }
    hide RowReviewable, OneFormation, CohortExpected, TakenInOrder;
  }

  lemma FormationIs(expected: seq<M.Config>, n: int)
    requires 3 <= n <= 5 || |expected| == n
    ensures CohortExpected(expected, n) <==> OneFormation(expected, n)
  {
    hide M.ValidConfig;
  }

  /** Nine limits in nanoseconds, of which the collection may last 45 s and the rest refers to a window of 10 s. */
  lemma ValidPolicyIff(p: Policy)
    ensures ValidPolicy(p) <==>
      && (forall n :: n in [p.maxRoundTrip, p.maxOffsetWidth, p.maxWallChange, p.maxOffsetChange, p.maxCollectionSpan,
                            p.maxStartSkew, p.minCommonWindow, p.maxFirstRequest, p.minLastCompletion] ==>
            0 <= n < 0x8000_0000_0000_0000)
      && 1 <= p.maxCollectionSpan <= 45_000_000_000 && 1 <= p.minCommonWindow <= 10_000_000_000
      && p.maxFirstRequest <= 10_000_000_000 && p.minLastCompletion <= 10_000_000_000
  {
    var all := [p.maxRoundTrip, p.maxOffsetWidth, p.maxWallChange, p.maxOffsetChange, p.maxCollectionSpan,
                p.maxStartSkew, p.minCommonWindow, p.maxFirstRequest, p.minLastCompletion];
    assert all[0] in all && all[1] in all && all[2] in all && all[3] in all && all[4] in all && all[5] in all;
    assert all[6] in all && all[7] in all && all[8] in all;
  }
}
