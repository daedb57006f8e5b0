/**
 What an overlap review is worth (scripts/pi_lab_results.py:132-252): for any clocks
 within its three listed assumptions, its numbers bound the true windows.
 */
module OverlapSoundness {
  import opened Aggregates
  import opened ClockExchange
  import opened WindowOverlap
  import M = Measurement

  /**
   One node's clocks and the instants behind its evidence: both exchanges, the wall read of
   each probe mark, the marks' own (later) instants, and the end of the ten-second window.
   */
  datatype Scene = Scene(
    wall: Clock, mono: Clock, first: Sighting, last: Sighting,
    startRead: Instant, started: Instant, closed: Instant, markerRead: Instant, marked: Instant)

  /** The interval of time every sighting and mark of the collection falls in. */
  datatype Span = Span(from: Instant, to: Instant)

  ghost predicate Marks(m: M.Mark, wall: Clock, mono: Clock, read: Instant, at: Instant) {
    && read <= at && wall(read) == m.unix as real
    && mono(at) - mono(read) <= m.readBracket as real
  }

  /** The instants are those the receipt and the exchanges report, and the span holds them all. */
  ghost predicate Witnessed(row: Row, coordinator: Clock, scene: Scene, span: Span) {
    var timing := row.measurement.load.timing;
    && Observes(row.before, coordinator, scene.wall, scene.first)
    && Observes(row.after, coordinator, scene.wall, scene.last)
    && Marks(timing.start, scene.wall, scene.mono, scene.startRead, scene.started)
    && Marks(timing.endMarker, scene.wall, scene.mono, scene.markerRead, scene.marked)
    && scene.started <= scene.closed <= scene.marked
    && scene.mono(scene.closed) - scene.mono(scene.started) == M.WINDOW as real
    && scene.mono(scene.marked) - scene.mono(scene.started) == timing.endMarkerElapsed as real
    && span.from <= scene.first.sent && scene.first.received <= span.to
    && span.from <= scene.last.sent && scene.last.received <= span.to
    && span.from <= scene.startRead && span.from <= scene.markerRead && scene.marked <= span.to
  }

  ghost predicate MappingBounded(wall: Clock, mono: Clock, mapping: int, span: Span) {
    forall s, t :: span.from <= s <= t <= span.to ==>
      RealAbs((wall(t) - wall(s)) - (mono(t) - mono(s))) <= mapping as real
  }

  ghost predicate OffsetChangeBounded(c: Clock, n: Clock, change: int, span: Span) {
    forall s, t :: span.from <= s <= span.to && span.from <= t <= span.to ==>
      RealAbs((n(t) - c(t)) - (n(s) - c(s))) <= change as real
  }

  /** Monotonic walls without steps, a bounded mapping on every subinterval, a bounded offset change throughout. */
  ghost predicate Assumed(coordinator: Clock, scene: Scene, span: Span, p: Policy) {
    && NoStepBack(coordinator, span.from, span.to) && NoStepBack(scene.wall, span.from, span.to)
    && MappingBounded(scene.wall, scene.mono, p.maxWallChange, span)
    && OffsetChangeBounded(coordinator, scene.wall, p.maxOffsetChange, span)
  }

  ghost predicate InRealInterval(x: real, i: Interval) { i.lo as real <= x <= i.hi as real }

  // ---- One node ----

  lemma ExchangeOffset(x: Exchange, c: Clock, n: Clock, s: Sighting, span: Span)
    requires Genuine(x) && Observes(x, c, n, s) && NoStepBack(c, span.from, span.to)
    requires span.from <= s.sent && s.received <= span.to
    ensures InRealInterval(Offset(c, n, s.read), x.offset)
  {
  }

  /** The envelope holds the true offset at every instant of the collection. */
  lemma OffsetInEnvelope(row: Row, c: Clock, scene: Scene, span: Span, p: Policy, t: Instant)
    requires Genuine(row.before) && Genuine(row.after)
    requires Witnessed(row, c, scene, span) && Assumed(c, scene, span, p)
    requires span.from <= t <= span.to
    ensures InRealInterval(Offset(c, scene.wall, t), OffsetEnvelope(row, p))
    ensures OffsetChange(row) <= p.maxOffsetChange
  {
    hide Genuine, MappingBounded, Marks;
    ExchangeOffset(row.before, c, scene.wall, scene.first, span);
    ExchangeOffset(row.after, c, scene.wall, scene.last, span);
    ChangeBetween(c, scene.wall, p.maxOffsetChange, span, scene.first.read, t);
    ChangeBetween(c, scene.wall, p.maxOffsetChange, span, scene.last.read, t);
    ChangeBetween(c, scene.wall, p.maxOffsetChange, span, scene.first.read, scene.last.read);
  }

  lemma ChangeBetween(c: Clock, n: Clock, change: int, span: Span, s: Instant, t: Instant)
    requires OffsetChangeBounded(c, n, change, span) && span.from <= s <= span.to && span.from <= t <= span.to
    ensures RealAbs(Offset(c, n, t) - Offset(c, n, s)) <= change as real
  {
  }

  /** A mark's wall time lies in the read bracket, widened on the far side by the mapping allowance. */
  lemma MarkWall(m: M.Mark, wall: Clock, mono: Clock, read: Instant, at: Instant, mapping: int, span: Span)
    requires Marks(m, wall, mono, read, at) && span.from <= read && at <= span.to
    requires NoStepBack(wall, span.from, span.to) && MappingBounded(wall, mono, mapping, span)
    ensures m.unix as real <= wall(at) <= (m.unix + m.readBracket + mapping) as real
  {
  }

  /** The node's window really began and ended inside its reported reference-time intervals. */
  lemma NodeIntervalsSound(row: Row, c: Clock, scene: Scene, span: Span, p: Policy)
    requires Genuine(row.before) && Genuine(row.after)
    requires Witnessed(row, c, scene, span) && Assumed(c, scene, span, p)
    ensures InRealInterval(c(scene.started), NodeOf(row, p).start)
    ensures InRealInterval(c(scene.closed), NodeOf(row, p).end)
  {
    var timing := row.measurement.load.timing;
    MarkWall(timing.start, scene.wall, scene.mono, scene.startRead, scene.started, p.maxWallChange, span);
    MarkWall(timing.endMarker, scene.wall, scene.mono, scene.markerRead, scene.marked, p.maxWallChange, span);
    LatenessWall(scene, timing.endMarkerElapsed, p.maxWallChange, span);
    OffsetInEnvelope(row, c, scene, span, p, scene.started);
    OffsetInEnvelope(row, c, scene, span, p, scene.closed);
    hide Genuine, Observes, Marks, MappingBounded, OffsetChangeBounded, NoStepBack, Assumed, OffsetEnvelope;
  }

  /** The marker's lateness is subtracted with the mapping allowance on both sides. */
  lemma LatenessWall(scene: Scene, elapsed: int, mapping: int, span: Span)
    requires span.from <= scene.startRead <= scene.started <= scene.closed <= scene.marked <= span.to
    requires scene.mono(scene.closed) - scene.mono(scene.started) == M.WINDOW as real
    requires scene.mono(scene.marked) - scene.mono(scene.started) == elapsed as real
    requires MappingBounded(scene.wall, scene.mono, mapping, span)
    ensures RealAbs(scene.wall(scene.marked) - scene.wall(scene.closed) - (elapsed - M.WINDOW) as real)
            <= mapping as real
  {
  }

  /** When the offset change is within its bound, the review never reports it as exceeded. */
  lemma OffsetChangeNeverReported(row: Row, c: Clock, scene: Scene, span: Span, p: Policy)
    requires Genuine(row.before) && Genuine(row.after)
    requires Witnessed(row, c, scene, span) && Assumed(c, scene, span, p)
    ensures OffsetChangeLimit !in LocalIssues(row, p)
  {
    OffsetInEnvelope(row, c, scene, span, p, scene.first.read);
    OffsetLimitReportedIff(row, p);
  }

  lemma OffsetLimitReportedIff(row: Row, p: Policy)
    ensures OffsetChangeLimit in LocalIssues(row, p) <==> OffsetChange(row) > p.maxOffsetChange
  {
    assert OffsetChangeLimit !in ProbeIssues(row, p);
    assert forall c :: OffsetChangeLimit !in ClientIssues(c, p);
  }

  // ---- The cohort ----

  ghost predicate CohortWitnessed(rows: seq<Row>, c: Clock, scenes: seq<Scene>, span: Span, p: Policy) {
    && |scenes| == |rows|
    && forall r :: 0 <= r < |rows| ==> Witnessed(rows[r], c, scenes[r], span) && Assumed(c, scenes[r], span, p)
  }

  lemma CohortIntervals(rows: seq<Row>, expected: seq<M.Config>, runId: Identifier, p: Policy,
                        c: Clock, scenes: seq<Scene>, span: Span)
    requires Reviewable(rows, expected, runId, p) && CohortWitnessed(rows, c, scenes, span, p)
    ensures forall r :: 0 <= r < |rows| ==>
      InRealInterval(c(scenes[r].started), Nodes(rows, p)[r].start)
        && InRealInterval(c(scenes[r].closed), Nodes(rows, p)[r].end)
  {
    hide Genuine, M.Reviewed, Witnessed, Assumed, NodeOf, NoncesTo;
    forall r | 0 <= r < |rows|
      ensures InRealInterval(c(scenes[r].started), Nodes(rows, p)[r].start)
      ensures InRealInterval(c(scenes[r].closed), Nodes(rows, p)[r].end)
    {
      assert RowReviewable(rows[r], r, expected[r], runId);
      NodeIntervalsSound(rows[r], c, scenes[r], span, p);
    }
  }

  lemma OverlapFacts(rows: seq<Row>, expected: seq<M.Config>, runId: Identifier, p: Policy, o: Overlap)
    requires Reviewable(rows, expected, runId, p) && IsOverlap(o, rows, runId, p)
    ensures |rows| > 1 && o.nodes == Nodes(rows, p) && o.common == CommonOf(o.nodes) && IsSkew(o.skew, o.nodes)
    ensures forall r :: 0 <= r < |rows| ==> o.nodes[r].role == r
  {
    hide RowReviewable, NodeOf, IsSkew, CommonOf, Judged, FlaggedTo, NoncesTo;
    NodeRoles(rows, expected, runId, p);
  }

  /** The instants' reference times, each inside its node's reported interval. */
  ghost predicate Located(nodes: seq<Node>, c: Clock, scenes: seq<Scene>) {
    && |scenes| == |nodes|
    && forall r :: 0 <= r < |nodes| ==>
         InRealInterval(c(scenes[r].started), nodes[r].start) && InRealInterval(c(scenes[r].closed), nodes[r].end)
  }

  lemma LocatedCommon(nodes: seq<Node>, c: Clock, scenes: seq<Scene>)
    requires |nodes| > 0 && Located(nodes, c, scenes)
    ensures CommonOf(nodes) > 0 ==> forall r :: 0 <= r < |nodes| ==>
      c(scenes[r].started) <= MaxOf(StartHighs(nodes)) as real
      && (MaxOf(StartHighs(nodes)) + CommonOf(nodes)) as real <= c(scenes[r].closed)
  {
    forall r | 0 <= r < |nodes|
      ensures c(scenes[r].started) <= MaxOf(StartHighs(nodes)) as real
      ensures MinOf(EndLows(nodes)) as real <= c(scenes[r].closed)
    {
      assert StartHighs(nodes)[r] == nodes[r].start.hi && EndLows(nodes)[r] == nodes[r].end.lo;
    }
  }

  lemma LocatedSkew(nodes: seq<Node>, c: Clock, scenes: seq<Scene>, skew: int, a: nat, b: nat)
    requires Located(nodes, c, scenes) && IsSkew(skew, nodes) && Rivals(nodes, a, b)
    ensures RealAbs(c(scenes[a].started) - c(scenes[b].started)) <= skew as real
  {
    assert Rivals(nodes, b, a);
    assert Gap(nodes, a, b) <= skew && Gap(nodes, b, a) <= skew;
  }

  /**
   The reported common window is a true one: when it is positive, a stretch of reference time of
   that length lies inside every node's ten-second window, so the true intersection is no shorter.
   */
  lemma CommonWindowSound(rows: seq<Row>, expected: seq<M.Config>, runId: Identifier, p: Policy, o: Overlap,
                          c: Clock, scenes: seq<Scene>, span: Span)
    returns (from: int)
    requires Reviewable(rows, expected, runId, p) && IsOverlap(o, rows, runId, p)
    requires CohortWitnessed(rows, c, scenes, span, p)
    ensures o.common > 0 ==> forall r :: 0 <= r < |rows| ==>
      c(scenes[r].started) <= from as real && (from + o.common) as real <= c(scenes[r].closed)
  {
    hide Reviewable, IsOverlap, Witnessed, Assumed, NodeOf, IsSkew, CommonOf;
    OverlapFacts(rows, expected, runId, p, o);
    CohortIntervals(rows, expected, runId, p, c, scenes, span);
    LocatedCommon(o.nodes, c, scenes);
    from := MaxOf(StartHighs(o.nodes));
  }

  /** Every true difference of two nodes' window starts is within the reported skew. */
  lemma StartSkewSound(rows: seq<Row>, expected: seq<M.Config>, runId: Identifier, p: Policy, o: Overlap,
                       c: Clock, scenes: seq<Scene>, span: Span, a: nat, b: nat)
    requires Reviewable(rows, expected, runId, p) && IsOverlap(o, rows, runId, p)
    requires CohortWitnessed(rows, c, scenes, span, p)
    requires a < |rows| && b < |rows| && a != b
    ensures RealAbs(c(scenes[a].started) - c(scenes[b].started)) <= o.skew as real
  {
    hide Reviewable, IsOverlap, Witnessed, Assumed, NodeOf, IsSkew, CommonOf;
    OverlapFacts(rows, expected, runId, p, o);
    CohortIntervals(rows, expected, runId, p, c, scenes, span);
    LocatedSkew(o.nodes, c, scenes, o.skew, a, b);
  }

  // ---- What passing the endpoint checks means ----

  /** Without a cohort issue, any two coordinator reads of the collection agree within twice the allowance. */
  lemma CohortMappingPairwise(stamps: seq<Stamp>, anchor: Stamp, mapping: int, i: nat, j: nat, a: int, s: int, t: int)
    requires !Changed(stamps, anchor, mapping)
    requires ValidStamp(anchor) && (forall k :: 0 <= k < |stamps| ==> ValidStamp(stamps[k]))
    requires i < |stamps| && j < |stamps|
    requires Placed(anchor, a) && Placed(stamps[i], s) && Placed(stamps[j], t)
    ensures Abs((stamps[j].unix - stamps[i].unix) - (t - s)) <= 2 * mapping
  {
    assert Disagreement(anchor, stamps[i]) <= mapping && Disagreement(anchor, stamps[j]) <= mapping;
    DisagreementOverPlacements(anchor, stamps[i], mapping);
    DisagreementOverPlacements(anchor, stamps[j], mapping);
  }
}
