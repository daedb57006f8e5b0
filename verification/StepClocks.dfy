/**
 Clocks that step through a list of readings: a wall and a monotonic reading at each point, never going back, with
 the wall's lead over monotonic time within one window. Any list of comparable readings is shown by such clocks, and
 a list can be extended by a reading of any wall or any monotonic time.
 */
module StepClocks {
  import opened Aggregates
  import opened ClockExchange

  datatype Point = Point(wall: int, mono: int) {
    predicate Below(q: Point) { wall <= q.wall && mono <= q.mono }

    function Lead(): int { wall - mono }

    /** Later points of one clock have larger sums, so the sum can serve as the instant. */
    function At(): int { wall + mono }
  }

  /** Any two readings are ordered, and all leads lie within the window. */
  ghost predicate Showable(pts: seq<Point>, lead: int, mapping: int) {
    && (forall p, q :: p in pts && q in pts ==> p.Below(q) || q.Below(p))
    && forall p :: p in pts ==> lead <= p.Lead() <= lead + mapping
  }

  // ---- The clocks of a list ----

  /** The first point is the earliest. */
  ghost predicate Starts(pts: seq<Point>) { pts != [] && forall p :: p in pts ==> pts[0].Below(p) }

  /** The last point reached at an instant; the first point before any is. */
  ghost function Reached(pts: seq<Point>, t: Instant): (p: Point)
    requires Starts(pts)
    ensures p in pts && (p == pts[0] || p.At() as real <= t)
    ensures forall q :: q in pts && q.At() as real <= t ==> q.At() <= p.At()
  {
    if |pts| == 1 then pts[0]
    else
      var n := |pts| - 1;
      assert pts == pts[..n] + [pts[n]];
      var p := Reached(pts[..n], t);
      if pts[n].At() as real <= t && p.At() < pts[n].At() then pts[n] else p
  }

  ghost function WallOf(pts: seq<Point>): Clock
    requires Starts(pts)
  {
    (t: Instant) => Reached(pts, t).wall as real
  }

  ghost function MonoOf(pts: seq<Point>): Clock
    requires Starts(pts)
  {
    (t: Instant) => Reached(pts, t).mono as real
  }

  lemma ReachedGrows(pts: seq<Point>, lead: int, mapping: int, s: Instant, t: Instant)
    requires Starts(pts) && Showable(pts, lead, mapping) && s <= t
    ensures Reached(pts, s).Below(Reached(pts, t))
  {
    var p, q := Reached(pts, s), Reached(pts, t);
    hide Reached;
    if p == pts[0] {
    } else {
      assert p.At() as real <= t;
    }
  }

  /** A reading is shown from its own instant until the next whole one. */
  lemma ReachedAt(pts: seq<Point>, lead: int, mapping: int, p: Point, t: Instant)
    requires Starts(pts) && Showable(pts, lead, mapping) && p in pts && p.At() as real <= t < p.At() as real + 1.0
    ensures Reached(pts, t) == p
  {
    var q := Reached(pts, t);
    hide Reached;
    if q == pts[0] {
      assert q.Below(p);
    } else {
      assert q.At() as real <= t;
    }
    assert q.At() == p.At();
  }

  lemma NeverBack(pts: seq<Point>, lead: int, mapping: int, from: Instant, to: Instant)
    requires Starts(pts) && Showable(pts, lead, mapping)
    ensures NoStepBack(WallOf(pts), from, to) && NoStepBack(MonoOf(pts), from, to)
  {
    forall s: Instant, t: Instant | s <= t ensures Reached(pts, s).Below(Reached(pts, t)) {
      ReachedGrows(pts, lead, mapping, s, t);
    }
    hide Reached, Showable, Starts;
  }

  lemma LeadsStay(pts: seq<Point>, lead: int, mapping: int, s: Instant, t: Instant)
    requires Starts(pts) && Showable(pts, lead, mapping)
    ensures RealAbs((WallOf(pts)(t) - WallOf(pts)(s)) - (MonoOf(pts)(t) - MonoOf(pts)(s))) <= mapping as real
  {
    var p, q := Reached(pts, s), Reached(pts, t);
    hide Reached;
    assert -mapping <= q.Lead() - p.Lead() <= mapping;
  }

  // ---- Extending a list ----

  /** The highest monotonic time shown before a wall, or as low as the window allows. */
  ghost function MonoBefore(pts: seq<Point>, wall: int, least: int): (m: int)
    ensures least <= m && forall p :: p in pts && p.wall < wall ==> p.mono <= m
    ensures m == least || exists p :: p in pts && p.wall < wall && p.mono == m
  {
    if pts == [] then least
    else
      var n := |pts| - 1;
      assert pts == pts[..n] + [pts[n]];
      var m := MonoBefore(pts[..n], wall, least);
      if pts[n].wall < wall then Max(m, pts[n].mono) else m
  }

  /** The highest wall shown up to a monotonic time, or as low as the window allows. */
  ghost function WallUpTo(pts: seq<Point>, mono: int, least: int): (w: int)
    ensures least <= w && forall p :: p in pts && p.mono <= mono ==> p.wall <= w
    ensures w == least || exists p :: p in pts && p.mono <= mono && p.wall == w
  {
    if pts == [] then least
    else
      var n := |pts| - 1;
      assert pts == pts[..n] + [pts[n]];
      var w := WallUpTo(pts[..n], mono, least);
      if pts[n].mono <= mono then Max(w, pts[n].wall) else w
  }

  lemma Extended(pts: seq<Point>, lead: int, mapping: int, p: Point)
    requires Showable(pts, lead, mapping) && lead <= p.Lead() <= lead + mapping
    requires forall q :: q in pts ==> p.Below(q) || q.Below(p)
    ensures Showable(pts + [p], lead, mapping)
  {
  }

  /** Any wall reading fits in, as early as the readings of lower walls allow. */
  lemma AddWall(pts: seq<Point>, lead: int, mapping: int, wall: int) returns (p: Point)
    requires Showable(pts, lead, mapping) && 0 <= mapping
    ensures p.wall == wall && Showable(pts + [p], lead, mapping)
    ensures forall q :: q in pts ==> if q.wall < wall then q.Below(p) else p.Below(q)
  {
    var least := wall - lead - mapping;
    p := Point(wall, MonoBefore(pts, wall, least));
    var m := p.mono;
    hide MonoBefore;
    if m != least {
      var r :| r in pts && r.wall < wall && r.mono == m;
      forall q | q in pts && q.wall >= wall ensures p.Below(q) { assert r.Below(q) || q.Below(r); }
    }
    Extended(pts, lead, mapping, p);
  }

  /** Any monotonic reading fits in, with a wall no lower than those of earlier readings. */
  lemma AddMono(pts: seq<Point>, lead: int, mapping: int, mono: int) returns (p: Point)
    requires Showable(pts, lead, mapping) && 0 <= mapping
    ensures p.mono == mono && Showable(pts + [p], lead, mapping)
    ensures forall q :: q in pts && q.mono <= mono ==> q.Below(p)
  {
    var least := mono + lead;
    p := Point(WallUpTo(pts, mono, least), mono);
    var w := p.wall;
    hide WallUpTo;
    if w != least {
      var r :| r in pts && r.mono <= mono && r.wall == w;
      forall q | q in pts && q.mono > mono ensures p.Below(q) { assert r.Below(q) || q.Below(r); }
    }
    Extended(pts, lead, mapping, p);
  }

  /** A wall reading at or after a given reading, and no later than it must be. */
  lemma AddAfter(pts: seq<Point>, lead: int, mapping: int, r: Point, wall: int) returns (p: Point)
    requires Showable(pts, lead, mapping) && 0 <= mapping && r in pts && r.wall <= wall
    ensures p.wall == wall && Showable(pts + [p], lead, mapping) && r.Below(p)
    ensures forall q :: q in pts && q.wall >= wall && r.Below(q) ==> p.Below(q)
  {
    if r.wall == wall {
      p := r;
      Extended(pts, lead, mapping, p);
    } else {
      p := AddWall(pts, lead, mapping, wall);
    }
  }

  // ---- Choosing a list ----

  /** A wall reading whose monotonic time is known up to a bracket. */
  datatype Want = Want(wall: int, lo: int, hi: int)

  predicate Possible(x: Want, lead: int, mapping: int) {
    x.lo <= x.hi && x.lo <= x.wall - lead && x.wall - lead - mapping <= x.hi
  }

  ghost predicate Placeable(wants: seq<Want>, lead: int, mapping: int) {
    && (forall x :: x in wants ==> Possible(x, lead, mapping))
    && forall x, y :: x in wants && y in wants && x.wall < y.wall ==> x.lo <= y.hi
  }

  /** The lowest a reading's monotonic time can be by itself, and after those of lower walls. */
  function Lowest(x: Want, lead: int, mapping: int): Point { Point(x.wall, Max(x.lo, x.wall - lead - mapping)) }

  ghost function Settled(wants: seq<Want>, x: Want, lead: int, mapping: int): Point {
    Point(x.wall, MonoBefore(Lows(wants, lead, mapping), x.wall, Lowest(x, lead, mapping).mono))
  }

  function Lows(wants: seq<Want>, lead: int, mapping: int): (lows: seq<Point>)
    ensures |lows| == |wants| && forall i :: 0 <= i < |wants| ==> lows[i] == Lowest(wants[i], lead, mapping)
  {
    seq(|wants|, i requires 0 <= i < |wants| => Lowest(wants[i], lead, mapping))
  }

  lemma SettledFits(wants: seq<Want>, x: Want, lead: int, mapping: int)
    requires Placeable(wants, lead, mapping) && 0 <= mapping && x in wants
    ensures var p := Settled(wants, x, lead, mapping);
      x.lo <= p.mono <= x.hi && lead <= p.Lead() <= lead + mapping
  {
    hide MonoBefore;
    assert Possible(x, lead, mapping);
    var lows, p := Lows(wants, lead, mapping), Settled(wants, x, lead, mapping);
    if p.mono != Lowest(x, lead, mapping).mono {
      var q :| q in lows && q.wall < x.wall && q.mono == p.mono;
      var j :| 0 <= j < |lows| && lows[j] == q;
      assert wants[j] in wants && Possible(wants[j], lead, mapping);
    }
  }

  lemma SettledInOrder(wants: seq<Want>, x: Want, y: Want, lead: int, mapping: int)
    requires x in wants && y in wants && (x.wall < y.wall || (x.wall == y.wall && x.lo <= y.lo))
    ensures Settled(wants, x, lead, mapping).Below(Settled(wants, y, lead, mapping))
  {
    hide MonoBefore;
    var lows, p := Lows(wants, lead, mapping), Settled(wants, x, lead, mapping);
    var i :| 0 <= i < |wants| && wants[i] == x;
    assert lows[i] in lows;
  }

  /** Readings that fit in pairs can all be shown by one clock, within their brackets. */
  lemma Place(wants: seq<Want>, lead: int, mapping: int) returns (pts: seq<Point>)
    requires Placeable(wants, lead, mapping) && 0 <= mapping
    ensures |pts| == |wants| && Showable(pts, lead, mapping)
    ensures forall i :: 0 <= i < |wants| ==> pts[i] == Settled(wants, wants[i], lead, mapping)
  {
    pts := seq(|wants|, i requires 0 <= i < |wants| => Settled(wants, wants[i], lead, mapping));
    forall x, y | x in wants && y in wants
      ensures Settled(wants, x, lead, mapping).Below(Settled(wants, y, lead, mapping))
              || Settled(wants, y, lead, mapping).Below(Settled(wants, x, lead, mapping))
    {
      if x.wall < y.wall || (x.wall == y.wall && x.lo <= y.lo) {
        SettledInOrder(wants, x, y, lead, mapping);
      } else {
        SettledInOrder(wants, y, x, lead, mapping);
      }
    }
    forall x | x in wants { SettledFits(wants, x, lead, mapping); }
    hide Settled, Placeable;
    forall p | p in pts ensures exists x :: x in wants && p == Settled(wants, x, lead, mapping) {
      var i :| 0 <= i < |pts| && pts[i] == p;
      assert wants[i] in wants;
    }
  }

  // ---- A monotonic clock raised to given readings ----

  /** At least the base, and at least every reading reached. */
  ghost function Raised(base: real, readings: seq<int>, at: seq<Instant>, t: Instant): (m: real)
    requires |readings| == |at|
    ensures base <= m && forall i :: 0 <= i < |at| && at[i] <= t ==> readings[i] as real <= m
    ensures m == base || exists i :: 0 <= i < |at| && at[i] <= t && m == readings[i] as real
  {
    if readings == [] then base
    else
      var n := |readings| - 1;
      var m := Raised(base, readings[..n], at[..n], t);
      assert forall i :: 0 <= i < n ==> readings[..n][i] == readings[i] && at[..n][i] == at[i];
      if at[n] <= t && m < readings[n] as real then readings[n] as real else m
  }

  /** Follows a wall clock as low as the window allows, except where readings raise it. */
  ghost function RaisedOf(wall: Clock, readings: seq<int>, at: seq<Instant>, lead: int, mapping: int): Clock
    requires |readings| == |at|
  {
    (t: Instant) => Raised(wall(t) - (lead + mapping) as real, readings, at, t)
  }

  /** Readings taken in order, each within the window of the wall at its instant. */
  ghost predicate Raisable(wall: Clock, readings: seq<int>, at: seq<Instant>, lead: int, mapping: int) {
    && |readings| == |at| && 0 <= mapping
    && (forall i, j :: 0 <= i < j < |at| ==> at[i] < at[j] && readings[i] <= readings[j])
    && forall i :: 0 <= i < |at| ==> lead as real <= wall(at[i]) - readings[i] as real <= (lead + mapping) as real
  }

  lemma RaisedGrows(wall: Clock, readings: seq<int>, at: seq<Instant>, lead: int, mapping: int, s: Instant, t: Instant)
    requires |readings| == |at| && s <= t && wall(s) <= wall(t)
    ensures RaisedOf(wall, readings, at, lead, mapping)(s) <= RaisedOf(wall, readings, at, lead, mapping)(t)
  {
    hide Raised;
  }

  lemma RaisedLead(wall: Clock, readings: seq<int>, at: seq<Instant>, lead: int, mapping: int, t: Instant)
    requires Raisable(wall, readings, at, lead, mapping)
    requires forall i :: 0 <= i < |at| && at[i] <= t ==> wall(at[i]) <= wall(t)
    ensures lead as real <= wall(t) - RaisedOf(wall, readings, at, lead, mapping)(t) <= (lead + mapping) as real
  {
    hide Raised;
  }

  lemma RaisedTo(wall: Clock, readings: seq<int>, at: seq<Instant>, lead: int, mapping: int, i: nat)
    requires Raisable(wall, readings, at, lead, mapping) && i < |at|
    ensures RaisedOf(wall, readings, at, lead, mapping)(at[i]) == readings[i] as real
  {
    hide Raised;
  }

  ghost predicate LeadsWithin(wall: Clock, mono: Clock, lead: int, mapping: int, from: Instant, to: Instant) {
    forall t :: from <= t <= to ==> lead as real <= wall(t) - mono(t) <= (lead + mapping) as real
  }

  lemma RaisedNeverBack(wall: Clock, readings: seq<int>, at: seq<Instant>, lead: int, mapping: int, from: Instant,
                        to: Instant)
    requires Raisable(wall, readings, at, lead, mapping) && NoStepBack(wall, from, to)
    requires forall i :: 0 <= i < |at| ==> from <= at[i] <= to
    ensures NoStepBack(RaisedOf(wall, readings, at, lead, mapping), from, to)
    ensures LeadsWithin(wall, RaisedOf(wall, readings, at, lead, mapping), lead, mapping, from, to)
  {
    var mono := RaisedOf(wall, readings, at, lead, mapping);
    hide RaisedOf;
    forall s: Instant, t: Instant | from <= s <= t <= to ensures mono(s) <= mono(t) {
      RaisedGrows(wall, readings, at, lead, mapping, s, t);
    }
    forall t: Instant | from <= t <= to ensures lead as real <= wall(t) - mono(t) <= (lead + mapping) as real {
      RaisedLead(wall, readings, at, lead, mapping, t);
    }
  }
}
