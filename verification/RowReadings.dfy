/**
 What the readings of one reviewed row can come from (scripts/pi_lab_results.py:132-217): clocks of both machines that
 show every wall and monotonic reading within the assumptions, and the arithmetic those readings must then satisfy.
 */
module RowReadings {
  import opened Aggregates
  import opened ClockExchange
  import opened WindowOverlap
  import opened OverlapSoundness
  import M = Measurement

  /** A wall read of this stamp, with the monotonic clock inside its bracket. */
  ghost predicate Reads(s: Stamp, mono: Clock, at: Instant) {
    s.monoBefore as real <= mono(at) <= s.monoAfter as real
  }

  /** All four monotonic brackets of the row hold what the clocks showed, the exchanges one after the other. */
  ghost predicate Bracketed(row: Row, mono: Clock, scene: Scene) {
    && Reads(row.before.node, scene.mono, scene.first.read) && Reads(row.after.node, scene.mono, scene.last.read)
    && Reads(row.before.before, mono, scene.first.sent) && Reads(row.before.after, mono, scene.first.received)
    && Reads(row.after.before, mono, scene.last.sent) && Reads(row.after.after, mono, scene.last.received)
    && scene.first.received <= scene.last.sent
  }

  /** Clocks and instants behind every reading of the row, within the assumptions on both machines. */
  ghost predicate Explains(row: Row, p: Policy, c: Clock, mono: Clock, scene: Scene, span: Span) {
    && Witnessed(row, c, scene, span) && Assumed(c, scene, span, p)
    && Bracketed(row, mono, scene) && MappingBounded(c, mono, p.maxWallChange, span)
    && NoStepBack(mono, span.from, span.to) && NoStepBack(scene.mono, span.from, span.to)
  }

  ghost predicate Admits(row: Row, p: Policy, c: Clock, mono: Clock, scene: Scene, span: Span, t: Instant,
                         offset: int) {
    Explains(row, p, c, mono, scene, span) && span.from <= t <= span.to && Offset(c, scene.wall, t) == offset as real
  }

  /** An offset some explanation of the row has at some instant of the collection. */
  ghost predicate Attained(row: Row, p: Policy, offset: int) {
    exists c, mono, scene, span, t :: Admits(row, p, c, mono, scene, span, t, offset)
  }

  ghost predicate Readable(row: Row, p: Policy) {
    && ValidPolicy(p) && Genuine(row.before) && Genuine(row.after) && Follows(row.before, row.after)
    && M.ValidTiming(row.measurement.load.timing)
  }

  // ---- What the readings must satisfy ----

  /** The node's stamps and probe marks. */
  datatype NodeReads = NodeReads(first: Stamp, last: Stamp, start: M.Mark, end: M.Mark, elapsed: int)

  function NodeReadsOf(row: Row): NodeReads {
    var timing := row.measurement.load.timing;
    NodeReads(row.before.node, row.after.node, timing.start, timing.endMarker, timing.endMarkerElapsed)
  }

  /**
   A lead is the wall less the monotonic time. Some reading's lead is at least this, by this stamp and the marks around
   it.
   */
  function LeadAtLeast(r: NodeReads, s: Stamp): int {
    Max(s.unix, Max(if r.end.unix < s.unix then r.start.unix + r.elapsed - r.end.readBracket else s.unix,
                    if r.start.unix < s.unix then r.end.unix - r.elapsed - r.start.readBracket else s.unix))
      - s.monoAfter
  }

  /** And some reading's lead is at most this. */
  function LeadAtMost(r: NodeReads, s: Stamp): int {
    Min(s.unix, Min(if s.unix < r.start.unix then r.end.unix - r.elapsed + r.end.readBracket else s.unix,
                    if s.unix < r.end.unix then r.start.unix + r.elapsed + r.start.readBracket else s.unix))
      - s.monoBefore
  }

  /** The probe's run, from its start to its end mark, lies between two stamps or around them as its length allows. */
  predicate RunFits(r: NodeReads, s: Stamp, t: Stamp) {
    && (s.unix < r.start.unix && r.end.unix < t.unix ==> r.elapsed - r.end.readBracket <= t.monoAfter - s.monoBefore)
    && (s.unix < r.end.unix && r.start.unix < t.unix ==> s.monoBefore - t.monoAfter <= r.elapsed + r.start.readBracket)
  }

  predicate PairFits(r: NodeReads, s: Stamp, t: Stamp, mapping: int) {
    LeadAtLeast(r, s) - LeadAtMost(r, t) <= mapping && RunFits(r, s, t)
  }

  predicate MarksFit(r: NodeReads, mapping: int) {
    && -mapping <= r.end.unix + r.end.readBracket - r.start.unix - r.elapsed
    && r.end.unix - r.start.unix - r.start.readBracket - r.elapsed <= mapping
    && (r.end.unix < r.start.unix ==> r.elapsed <= r.end.readBracket)
  }

  predicate NodeExplicable(r: NodeReads, mapping: int) {
    && r.first.unix <= r.last.unix && MarksFit(r, mapping)
    && PairFits(r, r.first, r.first, mapping) && PairFits(r, r.first, r.last, mapping)
    && PairFits(r, r.last, r.first, mapping) && PairFits(r, r.last, r.last, mapping)
  }

  /** The coordinator's stamps in the order taken. */
  function StampsOf(row: Row): seq<Stamp> { [row.before.before, row.before.after, row.after.before, row.after.after] }

  /** The coordinator's wall never went back, and one window holds a lead of each stamp. */
  predicate CoordinatorExplicable(stamps: seq<Stamp>, mapping: int) {
    && (forall i, j :: 0 <= i < j < |stamps| ==> stamps[i].unix <= stamps[j].unix)
    && forall i, j :: 0 <= i < |stamps| && 0 <= j < |stamps| ==>
      (stamps[i].unix - stamps[i].monoAfter) - (stamps[j].unix - stamps[j].monoBefore) <= mapping
  }

  predicate Explicable(row: Row, p: Policy) {
    CoordinatorExplicable(StampsOf(row), p.maxWallChange) && NodeExplicable(NodeReadsOf(row), p.maxWallChange)
  }

  // ---- Necessity ----

  ghost predicate Shown(s: Stamp, wall: Clock, mono: Clock, at: Instant, span: Span) {
    wall(at) == s.unix as real && Reads(s, mono, at) && span.from <= at <= span.to
  }

  /** What two stamps of one clock, taken in this order, must satisfy. */
  lemma TwoStamps(s: Stamp, t: Stamp, wall: Clock, mono: Clock, first: Instant, last: Instant, mapping: int, span: Span)
    requires Shown(s, wall, mono, first, span) && Shown(t, wall, mono, last, span) && first <= last
    requires NoStepBack(wall, span.from, span.to) && MappingBounded(wall, mono, mapping, span)
    ensures s.unix <= t.unix
    ensures (s.unix - s.monoAfter) - (t.unix - t.monoBefore) <= mapping
    ensures (t.unix - t.monoAfter) - (s.unix - s.monoBefore) <= mapping
  {
  }

  lemma CoordinatorMustFit(row: Row, p: Policy, c: Clock, mono: Clock, scene: Scene, span: Span)
    requires Explains(row, p, c, mono, scene, span)
    ensures CoordinatorExplicable(StampsOf(row), p.maxWallChange)
  {
    var stamps := StampsOf(row);
    var at := [scene.first.sent, scene.first.received, scene.last.sent, scene.last.received];
    hide NoStepBack, MappingBounded, Reads, Marks;
    assert forall i :: 0 <= i < 4 ==> Shown(stamps[i], c, mono, at[i], span);
    assert forall i, j :: 0 <= i <= j < 4 ==> at[i] <= at[j];
    hide Shown, Explains;
    forall i, j | 0 <= i <= j < 4
      ensures stamps[i].unix <= stamps[j].unix
      ensures (stamps[i].unix - stamps[i].monoAfter) - (stamps[j].unix - stamps[j].monoBefore) <= p.maxWallChange
      ensures (stamps[j].unix - stamps[j].monoAfter) - (stamps[i].unix - stamps[i].monoBefore) <= p.maxWallChange
    {
      TwoStamps(stamps[i], stamps[j], c, mono, at[i], at[j], p.maxWallChange, span);
    }
  }

  /** Two readings of one clock: in order, and with leads within one window. */
  ghost predicate Together(w: int, m: real, v: int, n: real, mapping: int) {
    && ((w <= v && m <= n) || (v <= w && n <= m))
    && -mapping as real <= (w as real - m) - (v as real - n) <= mapping as real
  }

  /** The monotonic times of the marks' wall reads, and of the marks themselves, which start and end the run. */
  ghost predicate RunSeen(r: NodeReads, startRead: real, endRead: real, started: real, mapping: int) {
    && startRead <= started <= startRead + r.start.readBracket as real
    && endRead <= started + r.elapsed as real <= endRead + r.end.readBracket as real
    && Together(r.start.unix, startRead, r.end.unix, endRead, mapping)
  }

  ghost predicate StampSeen(r: NodeReads, s: Stamp, at: real, startRead: real, endRead: real, mapping: int) {
    && s.monoBefore as real <= at <= s.monoAfter as real
    && Together(s.unix, at, r.start.unix, startRead, mapping) && Together(s.unix, at, r.end.unix, endRead, mapping)
  }

  lemma SeenMarksFit(r: NodeReads, startRead: real, endRead: real, started: real, mapping: int)
    requires RunSeen(r, startRead, endRead, started, mapping)
    ensures MarksFit(r, mapping)
  {
  }

  lemma SeenPairFits(r: NodeReads, s: Stamp, t: Stamp, atS: real, atT: real, startRead: real, endRead: real,
                     started: real, mapping: int)
    requires RunSeen(r, startRead, endRead, started, mapping) && Together(s.unix, atS, t.unix, atT, mapping)
    requires StampSeen(r, s, atS, startRead, endRead, mapping) && StampSeen(r, t, atT, startRead, endRead, mapping)
    ensures PairFits(r, s, t, mapping)
  {
    SomeLeadAtLeast(r, s, atS, startRead, endRead, started, mapping);
    SomeLeadAtMost(r, t, atT, startRead, endRead, started, mapping);
    hide LeadAtLeast, LeadAtMost;
  }

  lemma SomeLeadAtLeast(r: NodeReads, s: Stamp, at: real, startRead: real, endRead: real, started: real, mapping: int)
    requires RunSeen(r, startRead, endRead, started, mapping) && StampSeen(r, s, at, startRead, endRead, mapping)
    ensures LeadAtLeast(r, s) as real <= s.unix as real - at
      || LeadAtLeast(r, s) as real <= r.start.unix as real - startRead
            || LeadAtLeast(r, s) as real <= r.end.unix as real - endRead
  {
  }

  lemma SomeLeadAtMost(r: NodeReads, s: Stamp, at: real, startRead: real, endRead: real, started: real, mapping: int)
    requires RunSeen(r, startRead, endRead, started, mapping) && StampSeen(r, s, at, startRead, endRead, mapping)
    ensures LeadAtMost(r, s) as real >= s.unix as real - at
      || LeadAtMost(r, s) as real >= r.start.unix as real - startRead
            || LeadAtMost(r, s) as real >= r.end.unix as real - endRead
  {
  }

  lemma NodeMustFit(row: Row, p: Policy, c: Clock, mono: Clock, scene: Scene, span: Span)
    requires Explains(row, p, c, mono, scene, span)
    ensures NodeExplicable(NodeReadsOf(row), p.maxWallChange)
  {
    var r, n := NodeReadsOf(row), scene.mono;
    var x, y, a := n(scene.startRead), n(scene.markerRead), n(scene.started);
    NodeRunSeen(row, p, c, mono, scene, span);
    NodeStampSeen(row, p, c, mono, scene, span, r.first, scene.first.read);
    NodeStampSeen(row, p, c, mono, scene, span, r.last, scene.last.read);
    NodeStampsTogether(row, p, c, mono, scene, span);
    hide Explains, RunSeen, StampSeen, MarksFit, PairFits, Together;
    SeenMarksFit(r, x, y, a, p.maxWallChange);
    var first, last := n(scene.first.read), n(scene.last.read);
    SeenPairFits(r, r.first, r.first, first, first, x, y, a, p.maxWallChange);
    SeenPairFits(r, r.first, r.last, first, last, x, y, a, p.maxWallChange);
    SeenPairFits(r, r.last, r.first, last, first, x, y, a, p.maxWallChange);
    SeenPairFits(r, r.last, r.last, last, last, x, y, a, p.maxWallChange);
  }

  lemma ClockTogether(wall: Clock, mono: Clock, s: Instant, t: Instant, w: int, v: int, mapping: int, span: Span)
    requires NoStepBack(wall, span.from, span.to) && NoStepBack(mono, span.from, span.to)
    requires MappingBounded(wall, mono, mapping, span)
    requires span.from <= s <= span.to && span.from <= t <= span.to && wall(s) == w as real && wall(t) == v as real
    ensures Together(w, mono(s), v, mono(t), mapping)
  {
    if s <= t {
      assert wall(s) <= wall(t) && mono(s) <= mono(t);
    } else {
      assert wall(t) <= wall(s) && mono(t) <= mono(s);
    }
  }

  lemma NodeRunSeen(row: Row, p: Policy, c: Clock, mono: Clock, scene: Scene, span: Span)
    requires Explains(row, p, c, mono, scene, span)
    ensures RunSeen(NodeReadsOf(row), scene.mono(scene.startRead), scene.mono(scene.markerRead),
                    scene.mono(scene.started), p.maxWallChange)
  {
    var r, n := NodeReadsOf(row), scene.mono;
    hide MappingBounded, OffsetChangeBounded, Reads, Bracketed, Observes;
    assert n(scene.startRead) <= n(scene.started) && n(scene.markerRead) <= n(scene.marked);
    ClockTogether(scene.wall, n, scene.startRead, scene.markerRead, r.start.unix, r.end.unix, p.maxWallChange, span);
    hide NoStepBack, Together;
  }

  lemma NodeStampSeen(row: Row, p: Policy, c: Clock, mono: Clock, scene: Scene, span: Span, s: Stamp, at: Instant)
    requires Explains(row, p, c, mono, scene, span)
    requires (s == row.before.node && at == scene.first.read) || (s == row.after.node && at == scene.last.read)
    ensures StampSeen(NodeReadsOf(row), s, scene.mono(at), scene.mono(scene.startRead), scene.mono(scene.markerRead),
                      p.maxWallChange)
  {
    var r, n := NodeReadsOf(row), scene.mono;
    hide MappingBounded, OffsetChangeBounded, NoStepBack;
    ClockTogether(scene.wall, n, at, scene.startRead, s.unix, r.start.unix, p.maxWallChange, span);
    ClockTogether(scene.wall, n, at, scene.markerRead, s.unix, r.end.unix, p.maxWallChange, span);
    hide Together;
  }

  lemma NodeStampsTogether(row: Row, p: Policy, c: Clock, mono: Clock, scene: Scene, span: Span)
    requires Explains(row, p, c, mono, scene, span)
    ensures row.before.node.unix <= row.after.node.unix
    ensures var u, v, m, n := row.before.node.unix, row.after.node.unix, scene.mono(scene.first.read),
              scene.mono(scene.last.read);
      Together(u, m, v, n, p.maxWallChange) && Together(v, n, u, m, p.maxWallChange)
      && Together(u, m, u, m, p.maxWallChange) && Together(v, n, v, n, p.maxWallChange)
  {
    hide MappingBounded, OffsetChangeBounded, Marks;
    assert scene.first.read <= scene.last.read;
    assert scene.wall(scene.first.read) <= scene.wall(scene.last.read);
    hide NoStepBack;
    var u, v, w, n := row.before.node.unix, row.after.node.unix, scene.wall, scene.mono;
    ClockTogether(w, n, scene.first.read, scene.last.read, u, v, p.maxWallChange, span);
    ClockTogether(w, n, scene.first.read, scene.first.read, u, u, p.maxWallChange, span);
    ClockTogether(w, n, scene.last.read, scene.last.read, v, v, p.maxWallChange, span);
  }
}
