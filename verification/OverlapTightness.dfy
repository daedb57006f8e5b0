/**
 How tight the offset envelope of an overlap review is (scripts/pi_lab_results.py:175-181). It spreads the
 allowed change beyond both exchanges' complete envelopes, so its ends are conservative: clocks that show every
 reading of the row reach an end exactly when both exchanges have that same end and the readings fit together at all.
 */
module OverlapTightness {
  import opened Aggregates
  import opened ClockExchange
  import opened WindowOverlap
  import opened OverlapSoundness
  import opened RowReadings
  import opened StepClocks
  import M = Measurement

  /** The true offset never leaves the intersection of the two exchanges' envelopes, widened by the allowed change. */
  lemma OffsetInTightEnvelope(row: Row, p: Policy, c: Clock, scene: Scene, span: Span, t: Instant)
    requires Genuine(row.before) && Genuine(row.after)
    requires Witnessed(row, c, scene, span) && Assumed(c, scene, span, p) && span.from <= t <= span.to
    ensures (Max(row.before.offset.lo, row.after.offset.lo) - p.maxOffsetChange) as real <= Offset(c, scene.wall, t)
    ensures Offset(c, scene.wall, t) <= (Min(row.before.offset.hi, row.after.offset.hi) + p.maxOffsetChange) as real
  {
    hide NoStepBack, MappingBounded, OffsetChangeBounded, Genuine;
    ExchangeOffset(row.before, c, scene.wall, scene.first, span);
    ExchangeOffset(row.after, c, scene.wall, scene.last, span);
    ChangeBetween(c, scene.wall, p.maxOffsetChange, span, scene.first.read, t);
    ChangeBetween(c, scene.wall, p.maxOffsetChange, span, scene.last.read, t);
  }

  // ---- Solving the node's readings ----

  /** The four wall reads of the node, given the monotonic time its run started at. */
  function Wants(r: NodeReads, started: int): seq<Want> {
    [Want(r.first.unix, r.first.monoBefore, r.first.monoAfter), Want(r.last.unix, r.last.monoBefore, r.last.monoAfter),
     Want(r.start.unix, started - r.start.readBracket, started),
     Want(r.end.unix, started + r.elapsed - r.end.readBracket, started + r.elapsed)]
  }

  predicate ValidReads(r: NodeReads) {
    && ValidStamp(r.first) && ValidStamp(r.last) && r.first.monoAfter <= r.last.monoBefore
    && 0 <= r.start.readBracket && 0 <= r.end.readBracket && 0 <= r.elapsed
  }

  function LeadOf(r: NodeReads, mapping: int): int { Max(LeadAtLeast(r, r.first), LeadAtLeast(r, r.last)) - mapping }

  /** The latest of everything the run must start after. */
  function StartOf(r: NodeReads, lead: int, mapping: int): int {
    var least := Max(r.start.unix, r.end.unix - r.elapsed) - lead - mapping;
    Max(StartAfter(r, r.first, least), StartAfter(r, r.last, least))
  }

  function StartAfter(r: NodeReads, s: Stamp, least: int): int {
    if s.unix < r.start.unix then Max(least, s.monoBefore)
    else if s.unix < r.end.unix then Max(least, s.monoBefore - r.elapsed)
    else least
  }

  lemma StampPossible(r: NodeReads, s: Stamp, mapping: int)
    requires ValidReads(r) && NodeExplicable(r, mapping) && (s == r.first || s == r.last)
    ensures Possible(Want(s.unix, s.monoBefore, s.monoAfter), LeadOf(r, mapping), mapping)
  {
    hide RunFits, MarksFit;
  }

  lemma LeadBetween(r: NodeReads, mapping: int)
    requires NodeExplicable(r, mapping)
    ensures LeadAtLeast(r, r.first) - mapping <= LeadOf(r, mapping)
    ensures LeadAtLeast(r, r.last) - mapping <= LeadOf(r, mapping)
    ensures LeadOf(r, mapping) <= LeadAtMost(r, r.first) && LeadOf(r, mapping) <= LeadAtMost(r, r.last)
  {
    hide LeadAtLeast, LeadAtMost, RunFits, MarksFit;
  }

  /** The run's start is one of its lower bounds. */
  lemma StartIs(r: NodeReads, lead: int, mapping: int)
    ensures var a := StartOf(r, lead, mapping);
      || a == r.start.unix - lead - mapping || a == r.end.unix - r.elapsed - lead - mapping
      || IsStartAfter(r, r.first, a) || IsStartAfter(r, r.last, a)
  {
  }

  predicate IsStartAfter(r: NodeReads, s: Stamp, a: int) {
    (s.unix < r.start.unix && a == s.monoBefore) || (s.unix < r.end.unix && a == s.monoBefore - r.elapsed)
  }

  lemma RunPossible(r: NodeReads, mapping: int)
    requires ValidReads(r) && NodeExplicable(r, mapping) && 0 <= mapping
    ensures var wants := Wants(r, StartOf(r, LeadOf(r, mapping), mapping));
      Possible(wants[2], LeadOf(r, mapping), mapping) && Possible(wants[3], LeadOf(r, mapping), mapping)
  {
    var lead := LeadOf(r, mapping);
    LeadBetween(r, mapping);
    StartIs(r, lead, mapping);
    var a := StartOf(r, lead, mapping);
    assert r.start.unix - lead - mapping <= a && r.end.unix - r.elapsed - lead - mapping <= a;
    hide LeadOf, RunFits, LeadAtLeast, StartOf, PairFits;
  }

  /** A stamp after a mark's wall read leaves room for its monotonic time. */
  lemma StampAfterMarks(r: NodeReads, s: Stamp, mapping: int)
    requires ValidReads(r) && NodeExplicable(r, mapping) && 0 <= mapping && (s == r.first || s == r.last)
    ensures var a := StartOf(r, LeadOf(r, mapping), mapping);
      && (r.start.unix < s.unix ==> a - r.start.readBracket <= s.monoAfter)
      && (r.end.unix < s.unix ==> a + r.elapsed - r.end.readBracket <= s.monoAfter)
  {
    var lead := LeadOf(r, mapping);
    LeadBetween(r, mapping);
    StartIs(r, lead, mapping);
    assert RunFits(r, r.first, s) && RunFits(r, r.last, s);
    hide LeadOf, LeadAtMost, StartOf, PairFits;
  }

  lemma StampBeforeMarks(r: NodeReads, s: Stamp, mapping: int)
    requires ValidReads(r) && (s == r.first || s == r.last)
    ensures var a := StartOf(r, LeadOf(r, mapping), mapping);
      (s.unix < r.start.unix ==> s.monoBefore <= a) && (s.unix < r.end.unix ==> s.monoBefore <= a + r.elapsed)
  {
    hide LeadOf;
  }

  lemma Solved(r: NodeReads, mapping: int)
    requires ValidReads(r) && NodeExplicable(r, mapping) && 0 <= mapping
    ensures Placeable(Wants(r, StartOf(r, LeadOf(r, mapping), mapping)), LeadOf(r, mapping), mapping)
  {
    StampPossible(r, r.first, mapping);
    StampPossible(r, r.last, mapping);
    RunPossible(r, mapping);
    StampBeforeMarks(r, r.first, mapping);
    StampBeforeMarks(r, r.last, mapping);
    StampAfterMarks(r, r.first, mapping);
    StampAfterMarks(r, r.last, mapping);
    var wants := Wants(r, StartOf(r, LeadOf(r, mapping), mapping));
    hide LeadOf, StartOf, Possible, PairFits, Wants;
    WantsPairwise(r, StartOf(r, LeadOf(r, mapping), mapping), mapping);
  }

  lemma WantsPairwise(r: NodeReads, a: int, mapping: int)
    requires ValidReads(r) && r.first.unix <= r.last.unix && MarksFit(r, mapping)
    requires forall s :: s == r.first || s == r.last ==> StampAround(r, s, a)
    ensures forall x, y :: x in Wants(r, a) && y in Wants(r, a) && x.wall < y.wall ==> x.lo <= y.hi
  {
    assert StampAround(r, r.first, a) && StampAround(r, r.last, a);
  }

  /** Where the stamp's wall read lies before or after a mark's, its bracket leaves room for that order. */
  predicate StampAround(r: NodeReads, s: Stamp, a: int) {
    && (r.start.unix < s.unix ==> a - r.start.readBracket <= s.monoAfter)
    && (r.end.unix < s.unix ==> a + r.elapsed - r.end.readBracket <= s.monoAfter)
    && (s.unix < r.start.unix ==> s.monoBefore <= a) && (s.unix < r.end.unix ==> s.monoBefore <= a + r.elapsed)
  }

  // ---- A story that contains every reading ----

  /** What the node's clocks showed at each instant of the scene. */
  datatype Story = Story(
    sent: Point, read: Point, received: Point, resent: Point, reread: Point, rereceived: Point,
    startRead: Point, started: Point, closed: Point, markerRead: Point, marked: Point)

  ghost predicate RunTold(y: Story, r: NodeReads) {
    && y.startRead.wall == r.start.unix && y.startRead.Below(y.started)
    && y.started.mono - y.startRead.mono <= r.start.readBracket
    && y.started.Below(y.closed) && y.closed.Below(y.marked)
    && y.closed.mono == y.started.mono + M.WINDOW && y.marked.mono == y.started.mono + r.elapsed
    && y.markerRead.wall == r.end.unix && y.markerRead.Below(y.marked)
    && y.marked.mono - y.markerRead.mono <= r.end.readBracket
  }

  ghost predicate StampTold(p: Point, s: Stamp) { p.wall == s.unix && s.monoBefore <= p.mono <= s.monoAfter }

  /** The coordinator trails the node's wall by `mid` throughout. */
  ghost predicate ExchangesTold(y: Story, row: Row, mid: int) {
    && StampTold(y.read, row.before.node) && StampTold(y.reread, row.after.node)
    && y.sent.wall == row.before.before.unix + mid && y.received.wall == row.before.after.unix + mid
    && y.resent.wall == row.after.before.unix + mid && y.rereceived.wall == row.after.after.unix + mid
    && y.sent.Below(y.read) && y.read.Below(y.received) && y.received.Below(y.resent)
    && y.resent.Below(y.reread) && y.reread.Below(y.rereceived)
  }

  function PointsOf(y: Story): seq<Point> {
    [y.read, y.reread, y.startRead, y.markerRead, y.started, y.closed, y.marked, y.sent, y.received, y.resent,
     y.rereceived]
  }

  ghost predicate HoldsBoth(row: Row, mid: int) {
    row.before.offset.lo <= mid <= row.before.offset.hi && row.after.offset.lo <= mid <= row.after.offset.hi
  }

  lemma Tell(row: Row, p: Policy, mid: int) returns (y: Story, lead: int)
    requires Readable(row, p) && Explicable(row, p) && HoldsBoth(row, mid)
    ensures Showable(PointsOf(y), lead, p.maxWallChange)
    ensures RunTold(y, NodeReadsOf(row)) && ExchangesTold(y, row, mid)
  {
    var r, mapping := NodeReadsOf(row), p.maxWallChange;
    assert ValidReads(r) && 0 <= mapping && M.WINDOW <= r.elapsed && NodeExplicable(r, mapping);
    WallsInOrder(row, p, mid);
    hide Readable, Explicable, HoldsBoth, NodeExplicable, ValidReads;
    lead := LeadOf(r, mapping);
    var pts := TellReads(r, mapping);
    var started, closed, marked := TellRun(pts, r, lead, mapping);
    var all := pts + [started, closed, marked];
    var sent, received, resent, rereceived := TellExchanges(all, row, mid, lead, mapping);
    y := Story(sent, pts[0], received, resent, pts[1], rereceived, pts[2], started, closed, pts[3], marked);
    assert all + [sent, received, resent, rereceived] == PointsOf(y);
  }

  lemma WallsInOrder(row: Row, p: Policy, mid: int)
    requires Readable(row, p) && Explicable(row, p) && HoldsBoth(row, mid)
    ensures row.before.before.unix + mid <= row.before.node.unix <= row.before.after.unix + mid
    ensures row.before.after.unix <= row.after.before.unix
    ensures row.after.before.unix + mid <= row.after.node.unix <= row.after.after.unix + mid
  {
    var stamps := StampsOf(row);
    assert stamps[1].unix <= stamps[2].unix;
    hide NodeExplicable;
  }

  lemma TellReads(r: NodeReads, mapping: int) returns (pts: seq<Point>)
    requires ValidReads(r) && NodeExplicable(r, mapping) && 0 <= mapping
    ensures |pts| == 4 && Showable(pts, LeadOf(r, mapping), mapping)
    ensures StampTold(pts[0], r.first) && StampTold(pts[1], r.last) && pts[0].Below(pts[1])
    ensures var a := StartOf(r, LeadOf(r, mapping), mapping);
      && pts[2].wall == r.start.unix && a - r.start.readBracket <= pts[2].mono <= a
      && pts[3].wall == r.end.unix && a + r.elapsed - r.end.readBracket <= pts[3].mono <= a + r.elapsed
  {
    Solved(r, mapping);
    var lead := LeadOf(r, mapping);
    var a := StartOf(r, lead, mapping);
    var wants := Wants(r, a);
    assert r.first.unix <= r.last.unix && r.first.monoBefore <= r.last.monoBefore;
    hide *;
    pts := Place(wants, lead, mapping);
    WantsAre(r, a);
    SettledInOrder(wants, wants[0], wants[1], lead, mapping);
    forall i | 0 <= i < 4
      ensures pts[i].wall == wants[i].wall && wants[i].lo <= pts[i].mono <= wants[i].hi
    {
      SettledTold(wants, wants[i], lead, mapping);
    }
    StampIsTold(r.first, pts[0]);
    StampIsTold(r.last, pts[1]);
  }

  lemma StampIsTold(s: Stamp, p: Point)
    requires p.wall == s.unix && s.monoBefore <= p.mono <= s.monoAfter
    ensures StampTold(p, s)
  {
  }

  lemma SettledTold(wants: seq<Want>, x: Want, lead: int, mapping: int)
    requires Placeable(wants, lead, mapping) && 0 <= mapping && x in wants
    ensures var p := Settled(wants, x, lead, mapping); p.wall == x.wall && x.lo <= p.mono <= x.hi
  {
    hide Placeable;
    SettledFits(wants, x, lead, mapping);
  }

  lemma WantsAre(r: NodeReads, a: int)
    ensures |Wants(r, a)| == 4
    ensures Wants(r, a)[0] == Want(r.first.unix, r.first.monoBefore, r.first.monoAfter)
    ensures Wants(r, a)[1] == Want(r.last.unix, r.last.monoBefore, r.last.monoAfter)
    ensures Wants(r, a)[2] == Want(r.start.unix, a - r.start.readBracket, a)
    ensures Wants(r, a)[3] == Want(r.end.unix, a + r.elapsed - r.end.readBracket, a + r.elapsed)
  {
  }

  lemma TellRun(pts: seq<Point>, r: NodeReads, lead: int, mapping: int)
    returns (started: Point, closed: Point, marked: Point)
    requires |pts| == 4 && Showable(pts, lead, mapping) && 0 <= mapping && M.WINDOW <= r.elapsed
    requires var a := StartOf(r, lead, mapping);
      && pts[2].wall == r.start.unix && a - r.start.readBracket <= pts[2].mono <= a
      && pts[3].wall == r.end.unix && a + r.elapsed - r.end.readBracket <= pts[3].mono <= a + r.elapsed
    ensures Showable(pts + [started, closed, marked], lead, mapping)
    ensures pts[2].Below(started) && started.Below(closed) && closed.Below(marked) && pts[3].Below(marked)
    ensures started.mono == StartOf(r, lead, mapping)
    ensures closed.mono == started.mono + M.WINDOW && marked.mono == started.mono + r.elapsed
  {
    var a := StartOf(r, lead, mapping);
    hide Showable, StartOf;
    started := AddMono(pts, lead, mapping, a);
    closed := AddMono(pts + [started], lead, mapping, a + M.WINDOW);
    marked := AddMono(pts + [started] + [closed], lead, mapping, a + r.elapsed);
    assert pts + [started] + [closed] + [marked] == pts + [started, closed, marked];
  }

  lemma TellExchanges(pts: seq<Point>, row: Row, mid: int, lead: int, mapping: int)
    returns (sent: Point, received: Point, resent: Point, rereceived: Point)
    requires |pts| == 7 && Showable(pts, lead, mapping) && 0 <= mapping && pts[0].Below(pts[1])
    requires pts[0].wall == row.before.node.unix && pts[1].wall == row.after.node.unix
    requires row.before.before.unix + mid <= row.before.node.unix <= row.before.after.unix + mid
    requires row.before.after.unix <= row.after.before.unix
    requires row.after.before.unix + mid <= row.after.node.unix <= row.after.after.unix + mid
    ensures Showable(pts + [sent, received, resent, rereceived], lead, mapping)
    ensures sent.Below(pts[0]) && pts[0].Below(received) && received.Below(resent) && resent.Below(pts[1])
    ensures pts[1].Below(rereceived)
    ensures sent.wall == row.before.before.unix + mid && received.wall == row.before.after.unix + mid
    ensures resent.wall == row.after.before.unix + mid && rereceived.wall == row.after.after.unix + mid
  {
    hide Showable;
    sent := AddWall(pts, lead, mapping, row.before.before.unix + mid);
    var more := pts + [sent];
    received := AddAfter(more, lead, mapping, pts[0], row.before.after.unix + mid);
    assert pts[1] in more && received.Below(pts[1]);
    more := more + [received];
    resent := AddAfter(more, lead, mapping, received, row.after.before.unix + mid);
    assert pts[1] in more && resent.Below(pts[1]);
    more := more + [resent];
    rereceived := AddAfter(more, lead, mapping, pts[1], row.after.after.unix + mid);
    assert more + [rereceived] == pts + [sent, received, resent, rereceived];
  }

  // ---- The clocks of a story ----

  /** Before everything in the story, at the window's top lead. */
  function Base(y: Story, lead: int, mapping: int): Point {
    var wall := Min(y.sent.wall, Min(y.startRead.wall, y.markerRead.wall)) - 1;
    Point(wall, wall - lead - mapping)
  }

  function Timeline(y: Story, lead: int, mapping: int): seq<Point> { [Base(y, lead, mapping)] + PointsOf(y) }

  function SpanOf(y: Story, lead: int, mapping: int): Span {
    Span(Base(y, lead, mapping).At() as real, (Max(y.rereceived.At(), y.marked.At()) + 1) as real)
  }

  /** The instants of one exchange are kept apart within the unit of time its readings last. */
  ghost function SceneOf(y: Story, pts: seq<Point>): Scene
    requires Starts(pts)
  {
    Scene(WallOf(pts), MonoOf(pts),
          Sighting(y.sent.At() as real, y.read.At() as real + 0.125, y.received.At() as real + 0.25),
          Sighting(y.resent.At() as real + 0.5, y.reread.At() as real + 0.625, y.rereceived.At() as real + 0.75),
          y.startRead.At() as real, y.started.At() as real, y.closed.At() as real, y.markerRead.At() as real,
          y.marked.At() as real)
  }

  /** A coordinator that trails the node's wall by `early`, then `mid`, then `late`. */
  ghost function Trailing(wall: Clock, early: int, mid: int, late: int, span: Span): Clock {
    (t: Instant) => wall(t) - (if t <= span.from then early else if t >= span.to then late else mid) as real
  }

  ghost predicate Told(y: Story, row: Row, mid: int, lead: int, mapping: int) {
    && Showable(PointsOf(y), lead, mapping) && RunTold(y, NodeReadsOf(row)) && ExchangesTold(y, row, mid)
    && 0 <= mapping
  }

  lemma TimelineShown(y: Story, row: Row, mid: int, lead: int, mapping: int)
    requires Told(y, row, mid, lead, mapping)
    ensures Showable(Timeline(y, lead, mapping), lead, mapping) && Starts(Timeline(y, lead, mapping))
    ensures forall p :: p in PointsOf(y) ==>
      Base(y, lead, mapping).At() < p.At() <= Max(y.rereceived.At(), y.marked.At())
  {
    hide Showable, Starts;
    var base, pts := Base(y, lead, mapping), PointsOf(y);
    assert forall p :: p in pts ==> base.wall < p.wall && (p.Below(y.rereceived) || p.Below(y.marked));
    LeadsKnown(pts, lead, mapping);
    hide PointsOf, Told;
    forall p | p in pts ensures base.Below(p) && base.At() < p.At() { }
    Prepended(pts, lead, mapping, base);
  }

  lemma LeadsKnown(pts: seq<Point>, lead: int, mapping: int)
    requires Showable(pts, lead, mapping)
    ensures forall p :: p in pts ==> lead <= p.Lead() <= lead + mapping
  {
  }

  lemma Prepended(pts: seq<Point>, lead: int, mapping: int, base: Point)
    requires Showable(pts, lead, mapping) && lead <= base.Lead() <= lead + mapping
    requires forall p :: p in pts ==> base.Below(p)
    ensures Showable([base] + pts, lead, mapping) && Starts([base] + pts)
  {
  }

  lemma SceneReads(y: Story, pts: seq<Point>, lead: int, mapping: int, p: Point, t: Instant)
    requires Starts(pts) && Showable(pts, lead, mapping) && p in pts && p.At() as real <= t < p.At() as real + 1.0
    ensures WallOf(pts)(t) == p.wall as real && MonoOf(pts)(t) == p.mono as real
  {
    ReachedAt(pts, lead, mapping, p, t);
    hide Reached;
  }

  /** Each clock shows at each instant of the scene what the story says. */
  ghost predicate SceneTold(y: Story, scene: Scene) {
    && Shows(scene, scene.first.sent, y.sent) && Shows(scene, scene.first.read, y.read)
    && Shows(scene, scene.first.received, y.received) && Shows(scene, scene.last.sent, y.resent)
    && Shows(scene, scene.last.read, y.reread) && Shows(scene, scene.last.received, y.rereceived)
    && Shows(scene, scene.startRead, y.startRead) && Shows(scene, scene.started, y.started)
    && Shows(scene, scene.closed, y.closed) && Shows(scene, scene.markerRead, y.markerRead)
    && Shows(scene, scene.marked, y.marked)
  }

  ghost predicate Shows(scene: Scene, t: Instant, p: Point) {
    scene.wall(t) == p.wall as real && scene.mono(t) == p.mono as real
  }

  lemma Showing(y: Story, row: Row, mid: int, lead: int, mapping: int, p: Point, t: Instant)
    requires Told(y, row, mid, lead, mapping) && p in PointsOf(y) && p.At() as real <= t < p.At() as real + 1.0
    ensures Starts(Timeline(y, lead, mapping)) && Shows(SceneOf(y, Timeline(y, lead, mapping)), t, p)
  {
    TimelineShown(y, row, mid, lead, mapping);
    hide Told, Starts, Showable, PointsOf, WallOf, MonoOf;
    SceneReads(y, Timeline(y, lead, mapping), lead, mapping, p, t);
  }

  lemma SceneIsTold(y: Story, row: Row, mid: int, lead: int, mapping: int)
    requires Told(y, row, mid, lead, mapping)
    ensures Starts(Timeline(y, lead, mapping)) && SceneTold(y, SceneOf(y, Timeline(y, lead, mapping)))
  {
    ExchangesShown(y, row, mid, lead, mapping);
    RunShown(y, row, mid, lead, mapping);
    hide Told, Starts, Timeline, Shows, SceneOf;
  }

  lemma ExchangesShown(y: Story, row: Row, mid: int, lead: int, mapping: int)
    requires Told(y, row, mid, lead, mapping)
    ensures Starts(Timeline(y, lead, mapping))
    ensures var scene := SceneOf(y, Timeline(y, lead, mapping));
      && Shows(scene, scene.first.sent, y.sent) && Shows(scene, scene.first.read, y.read)
      && Shows(scene, scene.first.received, y.received) && Shows(scene, scene.last.sent, y.resent)
      && Shows(scene, scene.last.read, y.reread) && Shows(scene, scene.last.received, y.rereceived)
  {
    hide Told, Starts, Timeline, Shows, WallOf, MonoOf, Point.At;
    Showing(y, row, mid, lead, mapping, y.sent, y.sent.At() as real);
    Showing(y, row, mid, lead, mapping, y.read, y.read.At() as real + 0.125);
    Showing(y, row, mid, lead, mapping, y.received, y.received.At() as real + 0.25);
    Showing(y, row, mid, lead, mapping, y.resent, y.resent.At() as real + 0.5);
    Showing(y, row, mid, lead, mapping, y.reread, y.reread.At() as real + 0.625);
    Showing(y, row, mid, lead, mapping, y.rereceived, y.rereceived.At() as real + 0.75);
  }

  lemma RunShown(y: Story, row: Row, mid: int, lead: int, mapping: int)
    requires Told(y, row, mid, lead, mapping)
    ensures Starts(Timeline(y, lead, mapping))
    ensures var scene := SceneOf(y, Timeline(y, lead, mapping));
      && Shows(scene, scene.startRead, y.startRead) && Shows(scene, scene.started, y.started)
      && Shows(scene, scene.closed, y.closed) && Shows(scene, scene.markerRead, y.markerRead)
      && Shows(scene, scene.marked, y.marked)
  {
    hide Told, Starts, Timeline, Shows, WallOf, MonoOf, Point.At;
    Showing(y, row, mid, lead, mapping, y.startRead, y.startRead.At() as real);
    Showing(y, row, mid, lead, mapping, y.started, y.started.At() as real);
    Showing(y, row, mid, lead, mapping, y.closed, y.closed.At() as real);
    Showing(y, row, mid, lead, mapping, y.markerRead, y.markerRead.At() as real);
    Showing(y, row, mid, lead, mapping, y.marked, y.marked.At() as real);
  }

  /** The instants of the scene in their order, strictly inside the span. */
  ghost predicate SceneOrdered(scene: Scene, span: Span) {
    && span.from < scene.first.sent < scene.first.read < scene.first.received < scene.last.sent < scene.last.read
         < scene.last.received < span.to
    && span.from < scene.startRead <= scene.started <= scene.closed <= scene.marked < span.to
    && span.from < scene.markerRead <= scene.marked
  }

  lemma SceneIsOrdered(y: Story, row: Row, mid: int, lead: int, mapping: int)
    requires Told(y, row, mid, lead, mapping) && Starts(Timeline(y, lead, mapping))
    ensures SceneOrdered(SceneOf(y, Timeline(y, lead, mapping)), SpanOf(y, lead, mapping))
  {
    TimelineShown(y, row, mid, lead, mapping);
    hide Starts, Showable, WallOf, MonoOf, Timeline;
  }

  lemma TrailingReads(wall: Clock, early: int, mid: int, late: int, span: Span, t: Instant)
    requires span.from < t < span.to
    ensures Trailing(wall, early, mid, late, span)(t) == wall(t) - mid as real
  {
  }

  lemma SceneIsWitnessed(y: Story, row: Row, early: int, mid: int, late: int, scene: Scene, span: Span)
    requires RunTold(y, NodeReadsOf(row)) && ExchangesTold(y, row, mid)
    requires SceneTold(y, scene) && SceneOrdered(scene, span)
    ensures Witnessed(row, Trailing(scene.wall, early, mid, late, span), scene, span)
  {
    TrailingReads(scene.wall, early, mid, late, span, scene.first.sent);
    TrailingReads(scene.wall, early, mid, late, span, scene.first.received);
    TrailingReads(scene.wall, early, mid, late, span, scene.last.sent);
    TrailingReads(scene.wall, early, mid, late, span, scene.last.received);
    hide Trailing;
  }

  lemma TrailingHolds(wall: Clock, early: int, mid: int, late: int, span: Span, change: int)
    requires early >= mid >= late && early - late <= change && span.from < span.to
    requires NoStepBack(wall, span.from, span.to)
    ensures NoStepBack(Trailing(wall, early, mid, late, span), span.from, span.to)
    ensures OffsetChangeBounded(Trailing(wall, early, mid, late, span), wall, change, span)
  {
  }

  lemma SceneIsAssumed(y: Story, row: Row, p: Policy, early: int, mid: int, late: int, lead: int)
    requires Told(y, row, mid, lead, p.maxWallChange) && Starts(Timeline(y, lead, p.maxWallChange))
    requires early >= mid >= late && early - late <= p.maxOffsetChange
    ensures var scene, span := SceneOf(y, Timeline(y, lead, p.maxWallChange)), SpanOf(y, lead, p.maxWallChange);
      && Assumed(Trailing(scene.wall, early, mid, late, span), scene, span, p)
      && NoStepBack(scene.mono, span.from, span.to)
  {
    var pts, span := Timeline(y, lead, p.maxWallChange), SpanOf(y, lead, p.maxWallChange);
    TimelineShown(y, row, mid, lead, p.maxWallChange);
    SceneIsOrdered(y, row, mid, lead, p.maxWallChange);
    assert span.from < span.to;
    hide Told, Timeline, Starts, Showable, SceneOrdered, SpanOf;
    NeverBack(pts, lead, p.maxWallChange, span.from, span.to);
    forall s: Instant, t: Instant
      ensures RealAbs((WallOf(pts)(t) - WallOf(pts)(s)) - (MonoOf(pts)(t) - MonoOf(pts)(s))) <= p.maxWallChange as real
    {
      LeadsStay(pts, lead, p.maxWallChange, s, t);
    }
    hide WallOf, MonoOf;
    assert MappingBounded(WallOf(pts), MonoOf(pts), p.maxWallChange, span);
    TrailingHolds(WallOf(pts), early, mid, late, span, p.maxOffsetChange);
    hide NoStepBack, MappingBounded, OffsetChangeBounded, Trailing;
  }

  // ---- The coordinator's monotonic clock ----

  /** Four stamps taken one after the other. */
  predicate Taken(stamps: seq<Stamp>) {
    && |stamps| == 4 && (forall i :: 0 <= i < 4 ==> stamps[i].monoBefore <= stamps[i].monoAfter)
    && forall i, j :: 0 <= i < j < 4 ==> stamps[i].monoAfter <= stamps[j].monoBefore
  }

  /** A wall clock shows them at these instants. */
  ghost predicate TakenAt(stamps: seq<Stamp>, wall: Clock, at: seq<Instant>, span: Span) {
    && |stamps| == |at| == 4 && (forall i :: 0 <= i < 4 ==> wall(at[i]) == stamps[i].unix as real)
    && (forall i :: 0 <= i < 4 ==> span.from <= at[i] <= span.to) && forall i, j :: 0 <= i < j < 4 ==> at[i] < at[j]
  }

  function TopLead(stamps: seq<Stamp>): int
    requires |stamps| == 4
  {
    Max(Max(stamps[0].unix - stamps[0].monoAfter, stamps[1].unix - stamps[1].monoAfter),
        Max(stamps[2].unix - stamps[2].monoAfter, stamps[3].unix - stamps[3].monoAfter))
  }

  lemma TopIs(stamps: seq<Stamp>)
    requires |stamps| == 4
    ensures forall i :: 0 <= i < 4 ==> stamps[i].unix - stamps[i].monoAfter <= TopLead(stamps)
    ensures exists i :: 0 <= i < 4 && stamps[i].unix - stamps[i].monoAfter == TopLead(stamps)
  {
    var t := TopLead(stamps);
    assert stamps[0].unix - stamps[0].monoAfter == t || stamps[1].unix - stamps[1].monoAfter == t
      || stamps[2].unix - stamps[2].monoAfter == t || stamps[3].unix - stamps[3].monoAfter == t;
  }

  function Answer(s: Stamp, lead: int, mapping: int): int { Max(s.monoBefore, s.unix - lead - mapping) }

  function Answers(stamps: seq<Stamp>, mapping: int): (r: seq<int>)
    requires |stamps| == 4
    ensures |r| == 4 && forall i :: 0 <= i < 4 ==> r[i] == Answer(stamps[i], TopLead(stamps) - mapping, mapping)
  {
    seq(4, i requires 0 <= i < 4 => Answer(stamps[i], TopLead(stamps) - mapping, mapping))
  }

  /** The lowest lead window that reaches every stamp holds an answer inside each bracket. */
  lemma AnswerFits(stamps: seq<Stamp>, mapping: int, i: nat)
    requires Taken(stamps) && CoordinatorExplicable(stamps, mapping) && i < 4 && 0 <= mapping
    ensures var lead, k := TopLead(stamps) - mapping, Answers(stamps, mapping)[i];
      stamps[i].monoBefore <= k <= stamps[i].monoAfter && lead <= stamps[i].unix - k <= lead + mapping
  {
    assert stamps[i].monoBefore <= stamps[i].monoAfter;
    TopIs(stamps);
    hide TopLead;
    var j :| 0 <= j < 4 && stamps[j].unix - stamps[j].monoAfter == TopLead(stamps);
    assert (stamps[j].unix - stamps[j].monoAfter) - (stamps[i].unix - stamps[i].monoBefore) <= mapping;
  }

  lemma AnswersAreRaisable(stamps: seq<Stamp>, mapping: int, wall: Clock, at: seq<Instant>, span: Span)
    requires Taken(stamps) && CoordinatorExplicable(stamps, mapping) && 0 <= mapping && TakenAt(stamps, wall, at, span)
    ensures Raisable(wall, Answers(stamps, mapping), at, TopLead(stamps) - mapping, mapping)
  {
    var readings := Answers(stamps, mapping);
    forall i: nat | i < 4
      ensures stamps[i].monoBefore <= readings[i] <= stamps[i].monoAfter
      ensures TopLead(stamps) - mapping <= stamps[i].unix - readings[i] <= TopLead(stamps)
    {
      AnswerFits(stamps, mapping, i);
    }
    hide Answers, Answer, TopLead, CoordinatorExplicable;
  }

  ghost function AnswerClock(stamps: seq<Stamp>, mapping: int, wall: Clock, at: seq<Instant>): Clock
    requires |stamps| == |at| == 4
  {
    RaisedOf(wall, Answers(stamps, mapping), at, TopLead(stamps) - mapping, mapping)
  }

  lemma MonoIsBounded(wall: Clock, mono: Clock, lead: int, mapping: int, span: Span)
    requires LeadsWithin(wall, mono, lead, mapping, span.from, span.to)
    ensures MappingBounded(wall, mono, mapping, span)
  {
  }

  lemma AnswerRead(stamps: seq<Stamp>, mapping: int, wall: Clock, at: seq<Instant>, span: Span, i: nat)
    requires Taken(stamps) && CoordinatorExplicable(stamps, mapping) && 0 <= mapping && TakenAt(stamps, wall, at, span)
    requires i < 4
    ensures Reads(stamps[i], AnswerClock(stamps, mapping, wall, at), at[i])
  {
    AnswersAreRaisable(stamps, mapping, wall, at, span);
    AnswerFits(stamps, mapping, i);
    hide Answers, Raisable, CoordinatorExplicable, Taken, TakenAt, TopLead;
    AnswerShown(stamps, mapping, wall, at, i);
    hide AnswerClock;
  }

  lemma AnswerShown(stamps: seq<Stamp>, mapping: int, wall: Clock, at: seq<Instant>, i: nat)
    requires |stamps| == |at| == 4 && i < 4
    requires Raisable(wall, Answers(stamps, mapping), at, TopLead(stamps) - mapping, mapping)
    ensures AnswerClock(stamps, mapping, wall, at)(at[i]) == Answers(stamps, mapping)[i] as real
  {
    RaisedTo(wall, Answers(stamps, mapping), at, TopLead(stamps) - mapping, mapping, i);
    hide RaisedOf, Raisable;
  }

  lemma AnswersInSpan(stamps: seq<Stamp>, mapping: int, wall: Clock, at: seq<Instant>, span: Span)
    requires TakenAt(stamps, wall, at, span)
    ensures |stamps| == 4 && |Answers(stamps, mapping)| == |at| == 4
    ensures forall i :: 0 <= i < 4 ==> span.from <= at[i] <= span.to
    ensures AnswerClock(stamps, mapping, wall, at)
      == RaisedOf(wall, Answers(stamps, mapping), at, TopLead(stamps) - mapping, mapping)
  {
    hide RaisedOf, TopLead, Answer;
  }

  lemma AnswersBounded(stamps: seq<Stamp>, mapping: int, wall: Clock, at: seq<Instant>, span: Span)
    requires Taken(stamps) && CoordinatorExplicable(stamps, mapping) && 0 <= mapping && TakenAt(stamps, wall, at, span)
    requires NoStepBack(wall, span.from, span.to)
    ensures MappingBounded(wall, AnswerClock(stamps, mapping, wall, at), mapping, span)
    ensures NoStepBack(AnswerClock(stamps, mapping, wall, at), span.from, span.to)
  {
    hide *;
    AnswersInSpan(stamps, mapping, wall, at, span);
    var readings, lead := Answers(stamps, mapping), TopLead(stamps) - mapping;
    AnswersAreRaisable(stamps, mapping, wall, at, span);
    RaisedNeverBack(wall, readings, at, lead, mapping, span.from, span.to);
    MonoIsBounded(wall, AnswerClock(stamps, mapping, wall, at), lead, mapping, span);
  }

  ghost function InstantsOf(scene: Scene): seq<Instant> {
    [scene.first.sent, scene.first.received, scene.last.sent, scene.last.received]
  }

  ghost function CoordinatorMono(row: Row, mapping: int, c: Clock, scene: Scene): Clock {
    AnswerClock(StampsOf(row), mapping, c, InstantsOf(scene))
  }

  lemma CoordinatorTaken(row: Row, p: Policy, c: Clock, scene: Scene, span: Span)
    requires Readable(row, p) && Witnessed(row, c, scene, span) && SceneOrdered(scene, span)
    ensures Taken(StampsOf(row)) && TakenAt(StampsOf(row), c, InstantsOf(scene), span)
  {
    hide Marks, M.ValidTiming, ValidPolicy;
  }

  lemma CoordinatorIsRead(row: Row, p: Policy, c: Clock, scene: Scene, span: Span)
    requires Readable(row, p) && CoordinatorExplicable(StampsOf(row), p.maxWallChange)
    requires Witnessed(row, c, scene, span) && SceneOrdered(scene, span) && NoStepBack(c, span.from, span.to)
    ensures var mono := CoordinatorMono(row, p.maxWallChange, c, scene);
      && MappingBounded(c, mono, p.maxWallChange, span) && NoStepBack(mono, span.from, span.to)
      && forall i :: 0 <= i < 4 ==> Reads(StampsOf(row)[i], mono, InstantsOf(scene)[i])
  {
    CoordinatorTaken(row, p, c, scene, span);
    assert 0 <= p.maxWallChange;
    hide *;
    AnswersRead(StampsOf(row), p.maxWallChange, c, InstantsOf(scene), span);
    CoordinatorMonoIs(row, p.maxWallChange, c, scene);
  }

  lemma CoordinatorMonoIs(row: Row, mapping: int, c: Clock, scene: Scene)
    ensures |StampsOf(row)| == |InstantsOf(scene)| == 4
    ensures CoordinatorMono(row, mapping, c, scene) == AnswerClock(StampsOf(row), mapping, c, InstantsOf(scene))
  {
  }

  lemma AnswersRead(stamps: seq<Stamp>, mapping: int, wall: Clock, at: seq<Instant>, span: Span)
    requires Taken(stamps) && CoordinatorExplicable(stamps, mapping) && 0 <= mapping && TakenAt(stamps, wall, at, span)
    requires NoStepBack(wall, span.from, span.to)
    ensures |stamps| == |at| == 4
    ensures var mono := AnswerClock(stamps, mapping, wall, at);
      && MappingBounded(wall, mono, mapping, span) && NoStepBack(mono, span.from, span.to)
      && forall i :: 0 <= i < 4 ==> Reads(stamps[i], mono, at[i])
  {
    AnswersBounded(stamps, mapping, wall, at, span);
    assert |stamps| == |at| == 4;
    hide *;
    forall i: nat | i < 4 ensures Reads(stamps[i], AnswerClock(stamps, mapping, wall, at), at[i]) {
      AnswerRead(stamps, mapping, wall, at, span, i);
    }
  }

  lemma SceneIsBracketed(y: Story, row: Row, p: Policy, mid: int, c: Clock, scene: Scene, span: Span)
    requires Readable(row, p) && CoordinatorExplicable(StampsOf(row), p.maxWallChange)
    requires ExchangesTold(y, row, mid) && SceneTold(y, scene) && SceneOrdered(scene, span)
    requires Witnessed(row, c, scene, span) && NoStepBack(c, span.from, span.to)
    ensures var mono := CoordinatorMono(row, p.maxWallChange, c, scene);
      && Bracketed(row, mono, scene) && MappingBounded(c, mono, p.maxWallChange, span)
      && NoStepBack(mono, span.from, span.to)
  {
    var mono := CoordinatorMono(row, p.maxWallChange, c, scene);
    var stamps, at := StampsOf(row), InstantsOf(scene);
    hide StampTold, Shows, Readable, CoordinatorExplicable, Witnessed, NoStepBack, MappingBounded, Reads;
    CoordinatorIsRead(row, p, c, scene, span);
    hide CoordinatorMono;
    NodeRead(y.read, row.before.node, scene, scene.first.read);
    NodeRead(y.reread, row.after.node, scene, scene.last.read);
    assert Reads(stamps[0], mono, at[0]) && Reads(stamps[1], mono, at[1]);
    assert Reads(stamps[2], mono, at[2]) && Reads(stamps[3], mono, at[3]);
  }

  lemma NodeRead(p: Point, s: Stamp, scene: Scene, at: Instant)
    requires StampTold(p, s) && Shows(scene, at, p)
    ensures Reads(s, scene.mono, at)
  {
  }

  // ---- Both ends ----

  /** An offset both exchanges hold can be the true one throughout, but for a fall of the allowed change at one end. */
  lemma Falls(row: Row, p: Policy, mid: int, early: int, late: int)
    returns (c: Clock, mono: Clock, scene: Scene, span: Span)
    requires Readable(row, p) && Explicable(row, p) && HoldsBoth(row, mid)
    requires early >= mid >= late && early - late <= p.maxOffsetChange
    ensures Explains(row, p, c, mono, scene, span) && span.from <= span.to
    ensures Offset(c, scene.wall, span.from) == early as real && Offset(c, scene.wall, span.to) == late as real
  {
    var y, lead := Tell(row, p, mid);
    assert Told(y, row, mid, lead, p.maxWallChange);
    assert CoordinatorExplicable(StampsOf(row), p.maxWallChange);
    hide Explicable, HoldsBoth, PointsOf, Showable, RunTold, ExchangesTold;
    SceneIsTold(y, row, mid, lead, p.maxWallChange);
    SceneIsOrdered(y, row, mid, lead, p.maxWallChange);
    SceneIsAssumed(y, row, p, early, mid, late, lead);
    hide Starts, Timeline, SceneOf, SpanOf, Trailing, SceneTold, Assumed, Witnessed;
    scene, span := SceneOf(y, Timeline(y, lead, p.maxWallChange)), SpanOf(y, lead, p.maxWallChange);
    c := Trailing(scene.wall, early, mid, late, span);
    mono := CoordinatorMono(row, p.maxWallChange, c, scene);
    SceneIsWitnessed(y, row, early, mid, late, scene, span);
    AssumedNeverBack(row, p, c, scene, span);
    SceneIsBracketed(y, row, p, mid, c, scene, span);
    TrailingEnds(scene.wall, early, mid, late, scene, span);
    hide Bracketed, MappingBounded, NoStepBack, Offset, SceneOrdered, CoordinatorMono;
  }

  lemma AssumedNeverBack(row: Row, p: Policy, c: Clock, scene: Scene, span: Span)
    requires Assumed(c, scene, span, p)
    ensures NoStepBack(c, span.from, span.to)
  {
  }

  lemma TrailingEnds(wall: Clock, early: int, mid: int, late: int, scene: Scene, span: Span)
    requires SceneOrdered(scene, span)
    ensures span.from <= span.to
    ensures Offset(Trailing(wall, early, mid, late, span), wall, span.from) == early as real
    ensures Offset(Trailing(wall, early, mid, late, span), wall, span.to) == late as real
  {
  }

  lemma Admitted(row: Row, p: Policy, c: Clock, mono: Clock, scene: Scene, span: Span, t: Instant, offset: int)
    requires Explains(row, p, c, mono, scene, span)
    requires span.from <= t <= span.to && Offset(c, scene.wall, t) == offset as real
    ensures Attained(row, p, offset)
  {
    hide Explains, Offset;
    assert Admits(row, p, c, mono, scene, span, t, offset);
  }

  lemma EnvelopesHold(row: Row, p: Policy)
    requires Readable(row, p) && Explicable(row, p)
    ensures row.before.offset.lo <= row.before.offset.hi && row.after.offset.lo <= row.after.offset.hi
    ensures 0 <= p.maxOffsetChange
  {
    var stamps := StampsOf(row);
    assert stamps[0].unix <= stamps[1].unix && stamps[2].unix <= stamps[3].unix;
    hide NodeExplicable;
  }

  lemma AdmittedWithin(row: Row, p: Policy, offset: int)
    requires Readable(row, p) && Attained(row, p, offset)
    ensures Explicable(row, p)
    ensures Max(row.before.offset.lo, row.after.offset.lo) - p.maxOffsetChange <= offset
    ensures offset <= Min(row.before.offset.hi, row.after.offset.hi) + p.maxOffsetChange
  {
    hide Explains;
    var c, mono, scene, span, t :| Admits(row, p, c, mono, scene, span, t, offset);
    ExplainedIsExplicable(row, p, c, mono, scene, span);
    ExplainedTightly(row, p, c, mono, scene, span, t);
    hide Readable, Explicable, Offset;
  }

  lemma ExplainedTightly(row: Row, p: Policy, c: Clock, mono: Clock, scene: Scene, span: Span, t: Instant)
    requires Readable(row, p) && Explains(row, p, c, mono, scene, span) && span.from <= t <= span.to
    ensures (Max(row.before.offset.lo, row.after.offset.lo) - p.maxOffsetChange) as real <= Offset(c, scene.wall, t)
    ensures Offset(c, scene.wall, t) <= (Min(row.before.offset.hi, row.after.offset.hi) + p.maxOffsetChange) as real
  {
    assert Witnessed(row, c, scene, span) && Assumed(c, scene, span, p);
    hide Explains, Witnessed, Assumed, Genuine;
    OffsetInTightEnvelope(row, p, c, scene, span, t);
  }

  /** Clocks that show every reading exist exactly when the readings fit together, for rows with a common offset. */
  lemma ExplainedIsExplicable(row: Row, p: Policy, c: Clock, mono: Clock, scene: Scene, span: Span)
    requires Explains(row, p, c, mono, scene, span)
    ensures Explicable(row, p)
  {
    hide Explains, CoordinatorExplicable, NodeExplicable;
    CoordinatorMustFit(row, p, c, mono, scene, span);
    NodeMustFit(row, p, c, mono, scene, span);
  }

  /**
   The lower end is a possible offset exactly when both exchanges have that lower end and all readings fit together.
   */
  lemma LowerEndAttainedIff(row: Row, p: Policy)
    requires Readable(row, p)
    ensures Attained(row, p, OffsetEnvelope(row, p).lo) <==>
      row.before.offset.lo == row.after.offset.lo && Explicable(row, p)
  {
    hide Explicable, Readable, Attained, Explains;
    var end := OffsetEnvelope(row, p).lo;
    if row.before.offset.lo == row.after.offset.lo && Explicable(row, p) {
      EnvelopesHold(row, p);
      var c, mono, scene, span := Falls(row, p, row.before.offset.lo, row.before.offset.lo, end);
      Admitted(row, p, c, mono, scene, span, span.to, end);
    }
    if Attained(row, p, end) { AdmittedWithin(row, p, end); }
  }

  /** And the upper end likewise. */
  lemma UpperEndAttainedIff(row: Row, p: Policy)
    requires Readable(row, p)
    ensures Attained(row, p, OffsetEnvelope(row, p).hi) <==>
      row.before.offset.hi == row.after.offset.hi && Explicable(row, p)
  {
    hide Explicable, Readable, Attained, Explains;
    var end := OffsetEnvelope(row, p).hi;
    if row.before.offset.hi == row.after.offset.hi && Explicable(row, p) {
      EnvelopesHold(row, p);
      var c, mono, scene, span := Falls(row, p, row.before.offset.hi, end, row.before.offset.hi);
      Admitted(row, p, c, mono, scene, span, span.from, end);
    }
    if Attained(row, p, end) { AdmittedWithin(row, p, end); }
  }

  /** Readings that share some offset come from clocks within the assumptions exactly when they fit together. */
  lemma ExplicableIff(row: Row, p: Policy, mid: int)
    requires Readable(row, p) && HoldsBoth(row, mid)
    ensures Explicable(row, p) <==> exists c, mono, scene, span :: Explains(row, p, c, mono, scene, span)
  {
    hide Explicable, Readable, Explains, HoldsBoth;
    if Explicable(row, p) {
      ChangeAllowed(row, p);
      var c, mono, scene, span := Falls(row, p, mid, mid, mid);
    } else if c, mono, scene, span :| Explains(row, p, c, mono, scene, span) {
      ExplainedIsExplicable(row, p, c, mono, scene, span);
    }
  }

  lemma ChangeAllowed(row: Row, p: Policy)
    requires Readable(row, p)
    ensures 0 <= p.maxOffsetChange
  {
  }
}
