/**
 When one proposal's own reported start error can be exceeded (scripts/pi_lab_clock.py:178-179): for each accepted
 cohort, whether any clocks within the assumptions show its readings at all, and whether some of them fire later than
 the reported upper error allows.
 */
module StartOvershoot {
  import opened Aggregates
  import opened ClockExchange
  import opened StartExactness
  import opened StartPlan
  import opened StartSoundness
  import opened TentClocks

  /**
   Drift over the coordinator time between one exchange's end and another's beginning can close the gap they leave.
   */
  predicate Reconcilable(xs: seq<Exchange>, ppm: int) {
    forall i, j :: 0 <= i < |xs| && 0 <= j < |xs| ==> PairReconcilable(xs[i], xs[j], ppm)
  }

  predicate PairReconcilable(x: Exchange, y: Exchange, ppm: int) {
    (x.offset.lo - y.offset.hi) * MILLION <= ppm * Abs(x.after.unix - y.before.unix)
  }

  function Afters(xs: seq<Exchange>): (r: seq<int>)
    ensures |r| == |xs| && forall i :: 0 <= i < |xs| ==> r[i] == xs[i].after.unix
  {
    seq(|xs|, i requires 0 <= i < |xs| => xs[i].after.unix)
  }

  /** Past the latest time the reported bound allows, drift still lets the node's clock be short of its start. */
  predicate Overshoots(xs: seq<Exchange>, start: int, floor: int, ppm: int)
    requires |xs| > 0
  {
    var last, latest := start - floor, MaxOf(Afters(xs));
    if ppm == MILLION then forall i :: 0 <= i < |xs| ==> xs[i].node.unix <= start
    else if latest <= last
    then forall i :: 0 <= i < |xs| ==> MILLION * (xs[i].offset.lo - floor) < ppm * (last - xs[i].after.unix)
    else forall i :: 0 <= i < |xs| ==> MILLION * (xs[i].offset.lo + latest - start) <= ppm * (latest - xs[i].after.unix)
  }

  // ---- What clocks imply ----

  lemma Scales(ppm: int, passed: real)
    requires 0 <= ppm <= MILLION && 0.0 <= passed
    ensures 0.0 <= Drift(ppm, passed) <= 1000000.0 * passed
  {
    Product(ppm as real, passed);
    Product(1000000.0 - ppm as real, passed);
    assert (1000000.0 - ppm as real) * passed == 1000000.0 * passed - ppm as real * passed;
  }

  /** The offset a million times over, so that rates stay whole. */
  ghost function Change(scene: Scene, from: Instant, to: Instant): real {
    RealAbs(Offset(scene.coordinator, scene.node, to) - Offset(scene.coordinator, scene.node, from)) * 1000000.0
  }

  lemma DriftRule(c: Clock, n: Clock, ppm: int, from: Instant, to: Instant, s: Instant, t: Instant)
    requires BoundedDrift(c, n, ppm, from, to) && from <= s <= t <= to
    ensures RealAbs(Offset(c, n, t) - Offset(c, n, s)) * 1000000.0 <= Drift(ppm, c(t) - c(s))
  {
  }

  /** Over any two instants from an exchange's beginning on, time goes on and the offset keeps its rate. */
  lemma DriftOver(scene: Scene, x: Exchange, s: Sighting, ppm: int, from: Instant, to: Instant)
    requires SightingPlausible(scene, x, s, ppm) && s.sent <= from <= to <= scene.at
    ensures scene.coordinator(from) <= scene.coordinator(to)
    ensures Change(scene, from, to) <= Drift(ppm, scene.coordinator(to) - scene.coordinator(from))
  {
    assert NoStepBack(scene.coordinator, s.sent, scene.at);
    hide BoundedDrift, Drift;
    DriftRule(scene.coordinator, scene.node, ppm, s.sent, scene.at, from, to);
  }

  /** So the node's clock goes on as well. */
  lemma NodeGoesOn(scene: Scene, x: Exchange, s: Sighting, ppm: int, from: Instant, to: Instant)
    requires SightingPlausible(scene, x, s, ppm) && s.sent <= from <= to <= scene.at && 0 <= ppm <= MILLION
    ensures scene.node(from) <= scene.node(to)
  {
    hide SightingPlausible, Drift;
    DriftOver(scene, x, s, ppm, from, to);
    Scales(ppm, scene.coordinator(to) - scene.coordinator(from));
  }

  /** At its ends an exchange shows on which side of its bracket the offset then lies. */
  lemma EndsBound(scene: Scene, x: Exchange, s: Sighting, ppm: int)
    requires Genuine(x) && SightingPlausible(scene, x, s, ppm) && 0 <= ppm <= MILLION
    ensures s.sent <= s.received <= scene.at
    ensures scene.coordinator(s.received) == x.after.unix as real && scene.coordinator(s.sent) == x.before.unix as real
    ensures Offset(scene.coordinator, scene.node, s.received) >= x.offset.lo as real
    ensures Offset(scene.coordinator, scene.node, s.sent) <= x.offset.hi as real
  {
    assert Observes(x, scene.coordinator, scene.node, s) && s.received <= scene.at;
    hide SightingPlausible;
    NodeGoesOn(scene, x, s, ppm, s.sent, s.read);
    NodeGoesOn(scene, x, s, ppm, s.read, s.received);
  }

  lemma PairMustReconcile(scene: Scene, x: Exchange, s: Sighting, y: Exchange, t: Sighting, ppm: int)
    requires Genuine(x) && Genuine(y) && 0 <= ppm <= MILLION
    requires SightingPlausible(scene, x, s, ppm) && SightingPlausible(scene, y, t, ppm)
    ensures PairReconcilable(x, y, ppm)
  {
    hide *;
    EndsBound(scene, x, s, ppm);
    EndsBound(scene, y, t, ppm);
    if s.received <= t.sent {
      DriftOver(scene, x, s, ppm, s.received, t.sent);
      GapLater(scene, x.offset.lo, y.offset.hi, ppm, s.received, t.sent, x.after.unix, y.before.unix);
    } else if s.sent <= t.sent {
      DriftOver(scene, x, s, ppm, t.sent, s.received);
      GapEarlier(scene, x.offset.lo, y.offset.hi, ppm, s.received, t.sent, x.after.unix, y.before.unix);
    } else {
      DriftOver(scene, y, t, ppm, t.sent, s.received);
      GapEarlier(scene, x.offset.lo, y.offset.hi, ppm, s.received, t.sent, x.after.unix, y.before.unix);
    }
    PairCloses(x, y, ppm);
  }

  lemma PairCloses(x: Exchange, y: Exchange, ppm: int)
    requires (x.offset.lo - y.offset.hi) * MILLION <= ppm * Abs(x.after.unix - y.before.unix)
    ensures PairReconcilable(x, y, ppm)
  {
  }

  /** The offset is at least `low` when the coordinator shows `a`, and at most `high` when it later shows `b`. */
  lemma GapLater(scene: Scene, low: int, high: int, ppm: int, s: Instant, t: Instant, a: int, b: int)
    requires scene.coordinator(s) == a as real && scene.coordinator(t) == b as real && a <= b
    requires Offset(scene.coordinator, scene.node, s) >= low as real
    requires Offset(scene.coordinator, scene.node, t) <= high as real
    requires Change(scene, s, t) <= Drift(ppm, scene.coordinator(t) - scene.coordinator(s))
    ensures (low - high) * MILLION <= ppm * Abs(a - b)
  {
    hide Drift, Offset;
    assert RealAbs((a - b) as real) == scene.coordinator(t) - scene.coordinator(s);
    GapCloses(low - high, ppm, a - b);
  }

  lemma GapEarlier(scene: Scene, low: int, high: int, ppm: int, s: Instant, t: Instant, a: int, b: int)
    requires scene.coordinator(s) == a as real && scene.coordinator(t) == b as real && b <= a
    requires Offset(scene.coordinator, scene.node, s) >= low as real
    requires Offset(scene.coordinator, scene.node, t) <= high as real
    requires Change(scene, t, s) <= Drift(ppm, scene.coordinator(s) - scene.coordinator(t))
    ensures (low - high) * MILLION <= ppm * Abs(a - b)
  {
    hide Drift, Offset;
    assert RealAbs((a - b) as real) == scene.coordinator(s) - scene.coordinator(t);
    GapCloses(low - high, ppm, a - b);
  }

  lemma GapCloses(gap: int, ppm: int, passed: int)
    requires gap as real * 1000000.0 <= Drift(ppm, RealAbs(passed as real))
    ensures gap * MILLION <= ppm * Abs(passed)
  {
    assert RealAbs(passed as real) == Abs(passed) as real;
    assert ppm as real * Abs(passed) as real == (ppm * Abs(passed)) as real;
  }

  lemma ClocksReconcile(scene: Scene, xs: seq<Exchange>, ppm: int)
    requires Plausible(scene, xs, ppm) && 0 <= ppm <= MILLION && forall i :: 0 <= i < |xs| ==> Genuine(xs[i])
    ensures Reconcilable(xs, ppm)
  {
    hide Genuine, SightingPlausible, PairReconcilable;
    forall i, j | 0 <= i < |xs| && 0 <= j < |xs| ensures PairReconcilable(xs[i], xs[j], ppm) {
      PairMustReconcile(scene, xs[i], scene.sightings[i], xs[j], scene.sightings[j], ppm);
    }
  }

  /** Short of the start by no more than the drift: firing at `at` is possible as far as this exchange goes. */
  ghost predicate FiresAt(x: Exchange, start: int, at: real, ppm: int) {
    && x.after.unix as real <= at
    && (x.offset.lo as real - (start as real - at)) * 1000000.0 <= Drift(ppm, at - x.after.unix as real)
  }

  /** When the node fires, its offset has not fallen below an exchange's bracket by more than the drift since. */
  lemma FiringBound(scene: Scene, x: Exchange, s: Sighting, ppm: int, start: int)
    requires Genuine(x) && SightingPlausible(scene, x, s, ppm) && 0 <= ppm <= MILLION
    requires scene.node(scene.at) == start as real
    ensures FiresAt(x, start, scene.coordinator(scene.at), ppm)
  {
    EndsBound(scene, x, s, ppm);
    DriftOver(scene, x, s, ppm, s.received, scene.at);
    hide SightingPlausible, Genuine, Drift;
  }

  /** Nor has it risen above the bracket by more than that: the node cannot fire earlier. */
  ghost predicate NotBefore(x: Exchange, start: int, at: real, ppm: int) {
    (start as real - at - x.offset.hi as real) * 1000000.0 <= Drift(ppm, at - x.before.unix as real)
  }

  lemma NotFiredBefore(scene: Scene, x: Exchange, s: Sighting, ppm: int, start: int)
    requires Genuine(x) && SightingPlausible(scene, x, s, ppm) && 0 <= ppm <= MILLION
    requires scene.node(scene.at) == start as real
    ensures NotBefore(x, start, scene.coordinator(scene.at), ppm)
  {
    EndsBound(scene, x, s, ppm);
    DriftOver(scene, x, s, ppm, s.sent, scene.at);
    hide SightingPlausible, Genuine, Drift;
  }

  /** All that the readings say of a coordinator time at which the node's clock shows its start. */
  ghost predicate CanFire(xs: seq<Exchange>, start: int, at: real, ppm: int) {
    Reconcilable(xs, ppm) && forall i :: 0 <= i < |xs| ==>
      FiresAt(xs[i], start, at, ppm) && NotBefore(xs[i], start, at, ppm)
  }

  lemma DriftSplits(ppm: int, x: real, y: real)
    ensures Drift(ppm, x + y) == Drift(ppm, x) + Drift(ppm, y)
  {
  }

  /** Firing later asks more of the drift, unless the rate is whole. */
  lemma FiringEarlier(x: Exchange, start: int, at: real, earlier: real, ppm: int)
    requires FiresAt(x, start, at, ppm) && x.after.unix as real <= earlier <= at && 0 <= ppm <= MILLION
    ensures FiresAt(x, start, earlier, ppm)
    ensures ppm < MILLION && earlier < at ==>
      (x.offset.lo as real - (start as real - earlier)) * 1000000.0 < Drift(ppm, earlier - x.after.unix as real)
  {
    Scales(ppm, at - earlier);
    DriftSplits(ppm, earlier - x.after.unix as real, at - earlier);
    if ppm < MILLION && earlier < at { ScalesStrictly(ppm, at - earlier); }
    hide Drift;
  }

  lemma ScalesStrictly(ppm: int, passed: real)
    requires ppm < MILLION && 0.0 < passed
    ensures Drift(ppm, passed) < 1000000.0 * passed
  {
    var rest := 1000000.0 - ppm as real;
    assert rest * passed > 0.0;
    assert rest * passed == 1000000.0 * passed - ppm as real * passed;
  }

  lemma WholeDrift(ppm: int, passed: int)
    ensures Drift(ppm, passed as real) == (ppm * passed) as real
  {
  }

  lemma MustOvershoot(xs: seq<Exchange>, start: int, floor: int, ppm: int, at: real)
    requires |xs| > 0 && 0 <= ppm <= MILLION && at > (start - floor) as real
    requires Founded(xs, floor) && CanFire(xs, start, at, ppm)
    ensures Overshoots(xs, start, floor, ppm)
  {
    var last, latest := start - floor, MaxOf(Afters(xs));
    LatestBy(xs, at);
    forall i | 0 <= i < |xs| ensures OvershootsOne(xs[i], start, floor, ppm, latest) {
      MustOvershootOne(xs[i], start, floor, ppm, at, latest);
    }
    hide Genuine, FiresAt, Afters;
  }

  lemma LatestBy(xs: seq<Exchange>, at: real)
    requires |xs| > 0 && forall i :: 0 <= i < |xs| ==> xs[i].after.unix as real <= at
    ensures MaxOf(Afters(xs)) as real <= at && forall i :: 0 <= i < |xs| ==> xs[i].after.unix <= MaxOf(Afters(xs))
  {
    assert forall i :: 0 <= i < |xs| ==> Afters(xs)[i] == xs[i].after.unix;
  }

  predicate OvershootsOne(x: Exchange, start: int, floor: int, ppm: int, latest: int) {
    if ppm == MILLION then x.node.unix <= start
    else if latest <= start - floor then MILLION * (x.offset.lo - floor) < ppm * (start - floor - x.after.unix)
    else MILLION * (x.offset.lo + latest - start) <= ppm * (latest - x.after.unix)
  }

  lemma MustOvershootOne(x: Exchange, start: int, floor: int, ppm: int, at: real, latest: int)
    requires 0 <= ppm <= MILLION && at > (start - floor) as real && x.after.unix <= latest && latest as real <= at
    requires Genuine(x) && FiresAt(x, start, at, ppm)
    ensures OvershootsOne(x, start, floor, ppm, latest)
  {
    var last := start - floor;
    assert x.offset.lo == x.node.unix - x.after.unix;
    hide Genuine;
    if ppm == MILLION {
      assert Drift(ppm, at - x.after.unix as real) == 1000000.0 * (at - x.after.unix as real);
    } else if latest <= last {
      FiringEarlier(x, start, at, last as real, ppm);
      WholeDrift(ppm, last - x.after.unix);
      hide Drift, FiresAt;
      assert last as real - x.after.unix as real == (last - x.after.unix) as real;
    } else {
      FiringEarlier(x, start, at, latest as real, ppm);
      WholeDrift(ppm, latest - x.after.unix);
      assert latest as real - x.after.unix as real == (latest - x.after.unix) as real;
      hide Drift;
    }
  }

  /** A time past the reported bound at which every exchange lets the node fire. */
  lemma CanOvershoot(xs: seq<Exchange>, start: int, floor: int, ppm: int) returns (at: real)
    requires |xs| > 0 && 0 <= ppm <= MILLION && Overshoots(xs, start, floor, ppm)
    requires forall i :: 0 <= i < |xs| ==> Genuine(xs[i])
    ensures at > (start - floor) as real && forall i :: 0 <= i < |xs| ==> FiresAt(xs[i], start, at, ppm)
  {
    var last, latest := start - floor, MaxOf(Afters(xs));
    assert forall i :: 0 <= i < |xs| ==> Afters(xs)[i] == xs[i].after.unix;
    at := if ppm == MILLION then Max(latest, last + 1) as real
      else if latest <= last then last as real + 0.000001 else latest as real;
    forall i | 0 <= i < |xs| ensures FiresAt(xs[i], start, at, ppm) {
      assert OvershootsOne(xs[i], start, floor, ppm, latest);
      CanOvershootOne(xs[i], start, floor, ppm, latest, at);
    }
  }

  lemma CanOvershootOne(x: Exchange, start: int, floor: int, ppm: int, latest: int, at: real)
    requires 0 <= ppm <= MILLION && Genuine(x) && x.after.unix <= latest && OvershootsOne(x, start, floor, ppm, latest)
    requires at == if ppm == MILLION then Max(latest, start - floor + 1) as real
      else if latest <= start - floor then (start - floor) as real + 0.000001 else latest as real
    ensures FiresAt(x, start, at, ppm)
  {
    var last := start - floor;
    assert x.offset.lo == x.node.unix - x.after.unix;
    hide Genuine;
    if ppm == MILLION {
      assert Drift(ppm, at - x.after.unix as real) == 1000000.0 * (at - x.after.unix as real);
    } else if latest <= last {
      WholeDrift(ppm, last - x.after.unix);
      DriftSplits(ppm, (last - x.after.unix) as real, 0.000001);
      Scales(ppm, 0.000001);
      hide Drift;
      assert at - x.after.unix as real == (last - x.after.unix) as real + 0.000001;
      assert (MILLION * (x.offset.lo - floor)) as real == 1000000.0 * (x.offset.lo - floor) as real;
    } else {
      WholeDrift(ppm, latest - x.after.unix);
      hide Drift;
      assert at - x.after.unix as real == (latest - x.after.unix) as real;
      assert (MILLION * (x.offset.lo + latest - start)) as real == 1000000.0 * (x.offset.lo + latest - start) as real;
    }
  }

  // ---- Clocks that show the readings and fire then ----

  function Rate(ppm: int): real { ppm as real / 1000000.0 }

  /** The lowest offsets the exchanges allow, and the one at the firing. */
  function TentsOf(xs: seq<Exchange>, start: int, at: real): (r: seq<Tent>)
    ensures |r| == |xs| + 1 && r[|xs|] == Tent(at, start as real - at)
    ensures forall i :: 0 <= i < |xs| ==> r[i] == Tent(xs[i].after.unix as real, xs[i].offset.lo as real)
  {
    seq(|xs|, i requires 0 <= i < |xs| => Tent(xs[i].after.unix as real, xs[i].offset.lo as real))
      + [Tent(at, start as real - at)]
  }

  lemma RateIs(ppm: int, passed: real)
    ensures Allowed(Rate(ppm), passed) * 1000000.0 == Drift(ppm, passed)
  {
  }

  lemma SlopeAtFiring(x: Exchange, start: int, at: real, ppm: int)
    requires FiresAt(x, start, at, ppm)
    ensures Slope(Tent(x.after.unix as real, x.offset.lo as real), Rate(ppm), at) <= start as real - at
  {
    RateIs(ppm, at - x.after.unix as real);
    hide Drift, Rate;
  }

  lemma SlopeAtTop(height: real, rate: real, at: real)
    ensures Slope(Tent(at, height), rate, at) == height
  {
  }

  /** At the firing, no exchange's tent stands above the offset. */
  lemma RoofAtFiring(xs: seq<Exchange>, start: int, at: real, ppm: int)
    requires forall i :: 0 <= i < |xs| ==> FiresAt(xs[i], start, at, ppm)
    ensures Roof(TentsOf(xs, start, at), Rate(ppm), at) == start as real - at
  {
    var tents, rate := TentsOf(xs, start, at), Rate(ppm);
    SlopeAtTop(start as real - at, rate, at);
    forall i | 0 <= i < |xs| ensures Slope(tents[i], rate, at) <= start as real - at {
      SlopeAtFiring(xs[i], start, at, ppm);
    }
    assert |tents| == |xs| + 1 && Slope(tents[|xs|], rate, at) == start as real - at;
    hide *;
    RoofIs(tents, rate, at, |xs|);
  }

  lemma SlopeNotBefore(x: Exchange, start: int, at: real, ppm: int)
    requires NotBefore(x, start, at, ppm) && x.before.unix as real <= at
    ensures Slope(Tent(at, start as real - at), Rate(ppm), x.before.unix as real) <= x.offset.hi as real
  {
    RateIs(ppm, at - x.before.unix as real);
    assert RealAbs(x.before.unix as real - at) == at - x.before.unix as real;
    hide Drift, Rate;
  }

  /** At an exchange's beginning the roof is not above its bracket, and at its end not below. */
  lemma RoofAtEnds(xs: seq<Exchange>, start: int, at: real, ppm: int, j: nat)
    requires 0 <= ppm <= MILLION && j < |xs| && Reconcilable(xs, ppm)
    requires NotBefore(xs[j], start, at, ppm) && xs[j].before.unix as real <= at
    ensures Roof(TentsOf(xs, start, at), Rate(ppm), xs[j].before.unix as real) <= xs[j].offset.hi as real
    ensures Roof(TentsOf(xs, start, at), Rate(ppm), xs[j].after.unix as real) >= xs[j].offset.lo as real
  {
    var tents, t := TentsOf(xs, start, at), xs[j].before.unix as real;
    SlopeAtTop(xs[j].offset.lo as real, Rate(ppm), xs[j].after.unix as real);
    assert tents[j] in tents;
    hide Slope, Roof, Rate, TentsOf, PairReconcilable, NotBefore;
    var k := Highest(tents, Rate(ppm), t);
    var i :| 0 <= i < |tents| && tents[i] == k;
    if i < |xs| {
      assert PairReconcilable(xs[i], xs[j], ppm);
      SlopeReconciled(xs[i], xs[j], ppm);
    } else {
      SlopeNotBefore(xs[j], start, at, ppm);
    }
  }

  lemma SlopeReconciled(x: Exchange, y: Exchange, ppm: int)
    requires PairReconcilable(x, y, ppm)
    ensures Slope(Tent(x.after.unix as real, x.offset.lo as real), Rate(ppm),
                  y.before.unix as real) <= y.offset.hi as real
  {
    var apart := Abs(x.after.unix - y.before.unix);
    assert RealAbs(y.before.unix as real - x.after.unix as real) == apart as real;
    RateIs(ppm, apart as real);
    WholeDrift(ppm, apart);
  }

  /** The coordinator shows the instant itself, the node is ahead by the roof. */
  ghost function TentScene(tents: seq<Tent>, rate: real, sightings: seq<Sighting>, at: Instant): Scene
    requires tents != []
  {
    Scene(t => t, t => Ahead(tents, rate, t), sightings, at)
  }

  lemma RoofDrift(tents: seq<Tent>, ppm: int, s: real, t: real)
    requires tents != [] && 0 <= ppm && s <= t
    ensures RealAbs(Roof(tents, Rate(ppm), t) - Roof(tents, Rate(ppm), s)) * 1000000.0 <= Drift(ppm, t - s)
  {
    RoofChange(tents, Rate(ppm), s, t);
    RateIs(ppm, t - s);
    hide Roof, Allowed, Rate, Drift;
  }

  lemma TentOffset(tents: seq<Tent>, rate: real, sightings: seq<Sighting>, at: Instant, t: Instant)
    requires tents != []
    ensures var scene := TentScene(tents, rate, sightings, at);
      scene.coordinator(t) == t && scene.node(t) == Ahead(tents, rate, t)
      && Offset(scene.coordinator, scene.node, t) == Roof(tents, rate, t)
  {
  }

  lemma TentDrifts(tents: seq<Tent>, ppm: int, sightings: seq<Sighting>, at: Instant, from: Instant)
    requires tents != [] && 0 <= ppm
    ensures var scene := TentScene(tents, Rate(ppm), sightings, at);
      BoundedDrift(scene.coordinator, scene.node, ppm, from, at) && NoStepBack(scene.coordinator, from, at)
  {
    var scene := TentScene(tents, Rate(ppm), sightings, at);
    var c, n := scene.coordinator, scene.node;
    forall s: Instant, t: Instant | from <= s <= t <= at
      ensures RealAbs(Offset(c, n, t) - Offset(c, n, s)) * 1000000.0 <= Drift(ppm, c(t) - c(s)) && c(s) <= c(t)
    {
      TentOffset(tents, Rate(ppm), sightings, at, s);
      TentOffset(tents, Rate(ppm), sightings, at, t);
      RoofDrift(tents, ppm, s, t);
      hide *;
    }
    hide TentScene, Rate;
    IsBoundedDrift(c, n, ppm, from, at);
  }

  lemma IsBoundedDrift(c: Clock, n: Clock, ppm: int, from: Instant, to: Instant)
    requires forall s, t :: from <= s <= t <= to ==>
      RealAbs(Offset(c, n, t) - Offset(c, n, s)) * 1000000.0 <= Drift(ppm, c(t) - c(s))
    ensures BoundedDrift(c, n, ppm, from, to)
  {
    forall s: Instant, t: Instant | from <= s <= t <= to
      ensures RealAbs((n(t) - c(t)) - (n(s) - c(s))) * 1000000.0 <= ppm as real * (c(t) - c(s))
    {
      assert RealAbs(Offset(c, n, t) - Offset(c, n, s)) * 1000000.0 <= Drift(ppm, c(t) - c(s));
    }
  }

  /** The instant between an exchange's ends at which the node's clock shows what it read. */
  lemma ReadsBetween(xs: seq<Exchange>, start: int, at: real, ppm: int, j: nat) returns (s: Sighting)
    requires 0 <= ppm <= MILLION && j < |xs| && Reconcilable(xs, ppm)
    requires NotBefore(xs[j], start, at, ppm) && xs[j].before.unix as real <= at
    requires Genuine(xs[j]) && xs[j].before.unix <= xs[j].after.unix
    ensures s.sent == xs[j].before.unix as real <= s.read <= s.received == xs[j].after.unix as real
    ensures Ahead(TentsOf(xs, start, at), Rate(ppm), s.read) == xs[j].node.unix as real
  {
    var x := xs[j];
    RoofAtEnds(xs, start, at, ppm, j);
    assert x.offset.lo == x.node.unix - x.after.unix && x.offset.hi == x.node.unix - x.before.unix;
    hide Roof, Genuine, Reconcilable, TentsOf;
    var read := RoofCrosses(TentsOf(xs, start, at), Rate(ppm), x.before.unix as real, x.after.unix as real,
                            x.node.unix as real);
    s := Sighting(x.before.unix as real, read, x.after.unix as real);
  }

  lemma AllRead(xs: seq<Exchange>, start: int, at: real, ppm: int, n: nat) returns (sightings: seq<Sighting>)
    requires 0 <= ppm <= MILLION && n <= |xs| && Reconcilable(xs, ppm)
    requires forall i :: 0 <= i < |xs| ==>
      && Genuine(xs[i]) && xs[i].before.unix <= xs[i].after.unix
      && NotBefore(xs[i], start, at, ppm) && xs[i].before.unix as real <= at
    ensures |sightings| == n && forall i :: 0 <= i < n ==>
      && sightings[i].sent == xs[i].before.unix as real <= sightings[i].read
      && sightings[i].read <= sightings[i].received == xs[i].after.unix as real
      && Ahead(TentsOf(xs, start, at), Rate(ppm), sightings[i].read) == xs[i].node.unix as real
  {
    hide Genuine, Reconcilable, TentsOf, Ahead, Rate, NotBefore;
    if n == 0 {
      sightings := [];
    } else {
      var rest := AllRead(xs, start, at, ppm, n - 1);
      var last := ReadsBetween(xs, start, at, ppm, n - 1);
      sightings := rest + [last];
    }
  }

  /** Clocks within the assumptions that show every reading and fire at this time. */
  lemma FiringScene(xs: seq<Exchange>, start: int, at: real, ppm: int) returns (scene: Scene)
    requires |xs| > 0 && 0 <= ppm <= MILLION && CanFire(xs, start, at, ppm)
    requires forall i :: 0 <= i < |xs| ==> Genuine(xs[i]) && xs[i].before.unix <= xs[i].after.unix
    ensures Plausible(scene, xs, ppm) && scene.node(scene.at) == start as real && scene.coordinator(scene.at) == at
  {
    var tents, rate := TentsOf(xs, start, at), Rate(ppm);
    assert forall i :: 0 <= i < |xs| ==> xs[i].after.unix as real <= at;
    RoofAtFiring(xs, start, at, ppm);
    assert Ahead(tents, rate, at) == start as real;
    assert forall i :: 0 <= i < |xs| ==> NotBefore(xs[i], start, at, ppm);
    hide TentsOf, Roof, Reconcilable, FiresAt, NotBefore, Rate, Genuine;
    var sightings := AllRead(xs, start, at, ppm, |xs|);
    scene := TentScene(tents, rate, sightings, at);
    TentOffset(tents, rate, sightings, at, at);
    hide TentScene, Ahead;
    forall i | 0 <= i < |xs| ensures SightingPlausible(scene, xs[i], sightings[i], ppm) {
      TentSighting(xs[i], tents, ppm, sightings, at, sightings[i]);
    }
    hide SightingPlausible;
    TentSceneHas(tents, rate, sightings, at);
  }

  lemma TentSceneHas(tents: seq<Tent>, rate: real, sightings: seq<Sighting>, at: Instant)
    requires tents != []
    ensures TentScene(tents, rate, sightings, at).sightings == sightings
    ensures TentScene(tents, rate, sightings, at).at == at
  {
  }

  lemma TentSighting(x: Exchange, tents: seq<Tent>, ppm: int, sightings: seq<Sighting>, at: Instant, s: Sighting)
    requires tents != [] && 0 <= ppm
    requires s.sent == x.before.unix as real <= s.read <= s.received == x.after.unix as real <= at
    requires Ahead(tents, Rate(ppm), s.read) == x.node.unix as real
    ensures SightingPlausible(TentScene(tents, Rate(ppm), sightings, at), x, s, ppm)
  {
    TentDrifts(tents, ppm, sightings, at, s.sent);
    TentOffset(tents, Rate(ppm), sightings, at, s.sent);
    TentOffset(tents, Rate(ppm), sightings, at, s.read);
    TentOffset(tents, Rate(ppm), sightings, at, s.received);
    TentSceneHas(tents, Rate(ppm), sightings, at);
    hide TentScene, BoundedDrift, NoStepBack, Roof, Rate, Ahead;
  }

  // ---- One accepted proposal ----

  ghost function PlanFor(rows: seq<Observation>, runId: Identifier, now: Stamp, p: Policy, role: nat): RolePlan
    requires Accepted(rows, runId, now, p) && role < |rows|
  {
    Proposal(rows, runId, now, p).roles[role]
  }

  ghost function SkewFor(rows: seq<Observation>, runId: Identifier, now: Stamp, p: Policy): int
    requires Accepted(rows, runId, now, p)
  {
    Proposal(rows, runId, now, p).skew
  }

  lemma PlanForIs(rows: seq<Observation>, runId: Identifier, now: Stamp, p: Policy, role: nat)
    requires Accepted(rows, runId, now, p) && role < |rows|
    ensures |rows[role].exchanges| == 3 && ValidPolicy(p)
    ensures forall i :: 0 <= i < 3 ==> Usable(rows[role].exchanges[i], runId, now, p)
    ensures PlanFor(rows, runId, now, p, role) == PlanOf(role, Samples(rows[role].exchanges, now, p), now, p)
  {
    AcceptedRole(rows, runId, now, p, role);
    hide Accepted, Proposal, Usable, PlanOf, Samples;
  }

  /** Every exchange is genuine, its coordinator did not step back, and the plan's floor is below its bracket. */
  ghost predicate Founded(xs: seq<Exchange>, floor: int) {
    forall i :: 0 <= i < |xs| ==> Genuine(xs[i]) && xs[i].before.unix <= xs[i].after.unix && floor <= xs[i].offset.lo
  }

  lemma AcceptedFacts(rows: seq<Observation>, runId: Identifier, now: Stamp, p: Policy, role: nat)
    requires Accepted(rows, runId, now, p) && role < |rows|
    ensures |rows[role].exchanges| == 3 && 0 <= p.driftPpm <= MILLION && 0 <= p.maxLateness
    ensures Founded(rows[role].exchanges, PlanFor(rows, runId, now, p, role).offset.lo)
  {
    PlanForIs(rows, runId, now, p, role);
    assert 0 <= p.driftPpm <= MILLION && 0 <= p.maxLateness;
    hide *;
    PlanIsFounded(role, rows[role].exchanges, runId, now, p);
  }

  lemma PlanIsFounded(role: int, xs: seq<Exchange>, runId: Identifier, now: Stamp, p: Policy)
    requires |xs| == 3 && ValidPolicy(p) && forall i :: 0 <= i < 3 ==> Usable(xs[i], runId, now, p)
    ensures Founded(xs, PlanOf(role, Samples(xs, now, p), now, p).offset.lo)
  {
    hide Usable, PlanOf, Samples, Genuine, ValidPolicy;
    forall i | 0 <= i < 3
      ensures Genuine(xs[i]) && xs[i].before.unix <= xs[i].after.unix
      ensures PlanOf(role, Samples(xs, now, p), now, p).offset.lo <= xs[i].offset.lo
    {
      PlanFloor(role, xs, runId, now, p, i);
    }
  }

  /** A fair case is one whose clocks meet the assumptions and fire at the planned start. */
  lemma FairCaseIs(rows: seq<Observation>, runId: Identifier, now: Stamp, p: Policy, role: nat, scene: Scene)
    requires Accepted(rows, runId, now, p) && role < |rows|
    ensures FairCase(rows, runId, now, p, role, scene) <==>
      && Plausible(scene, rows[role].exchanges, p.driftPpm)
      && scene.node(scene.at) == PlanFor(rows, runId, now, p, role).start as real
  {
    AcceptedRole(rows, runId, now, p, role);
    ProposalShape(rows, runId, now, p);
    hide Accepted, Proposal, Plausible;
  }

  /** Later than the reported upper error is later than the start less the lowest offset. */
  lemma LateIs(rows: seq<Observation>, runId: Identifier, now: Stamp, p: Policy, role: nat, scene: Scene)
    requires Accepted(rows, runId, now, p) && role < |rows|
    ensures var plan := PlanFor(rows, runId, now, p, role);
      StartError(scene, now.unix + p.lead) > ReportedUpper(rows, runId, now, p, role) <==>
      scene.coordinator(scene.at) > (plan.start - plan.offset.lo) as real
  {
    AcceptedRole(rows, runId, now, p, role);
    ProposalShape(rows, runId, now, p);
    PlanShape(role, rows[role].exchanges, now, p);
    hide Accepted, Proposal, PlanOf, Samples;
  }

  lemma PlanShape(role: int, xs: seq<Exchange>, now: Stamp, p: Policy)
    requires |xs| == 3
    ensures var plan := PlanOf(role, Samples(xs, now, p), now, p);
      && plan.start == now.unix + p.lead + plan.selected
      && plan.startError.hi - p.maxLateness == plan.selected - plan.offset.lo
  {
  }

  lemma PlanFloor(role: int, xs: seq<Exchange>, runId: Identifier, now: Stamp, p: Policy, i: nat)
    requires |xs| == 3 && i < 3 && Usable(xs[i], runId, now, p) && ValidPolicy(p)
    ensures Genuine(xs[i]) && xs[i].before.unix <= xs[i].after.unix
    ensures PlanOf(role, Samples(xs, now, p), now, p).offset.lo <= xs[i].offset.lo
  {
    MarginNonnegative(xs[i], now, p);
    var samples := Samples(xs, now, p);
    assert Lows(samples)[i] == samples[i].bounds.lo;
    var noted := Issues(xs[i], ChecksOf(p));
    if xs[i].after.unix < xs[i].before.unix { SteppedBackEnvelopeIsRefused(xs[i], ChecksOf(p)); }
    hide Ceiling, Issues;
  }

  /** Some clocks within the assumptions fire this role later than its reported error allows. */
  ghost predicate Exceeded(rows: seq<Observation>, runId: Identifier, now: Stamp, p: Policy, role: nat)
    requires Accepted(rows, runId, now, p) && role < |rows|
  {
    exists scene :: FairCase(rows, runId, now, p, role, scene)
                    && StartError(scene, now.unix + p.lead) > ReportedUpper(rows, runId, now, p, role)
  }

  lemma OvershootIsExceeded(rows: seq<Observation>, runId: Identifier, now: Stamp, p: Policy, role: nat)
    requires Accepted(rows, runId, now, p) && role < |rows| && |rows[role].exchanges| == 3
    requires var plan, xs := PlanFor(rows, runId, now, p, role), rows[role].exchanges;
      Reconcilable(xs, p.driftPpm) && Overshoots(xs, plan.start, plan.offset.lo, p.driftPpm)
    ensures Exceeded(rows, runId, now, p, role)
  {
    hide *;
    AcceptedFacts(rows, runId, now, p, role);
    var plan, xs := PlanFor(rows, runId, now, p, role), rows[role].exchanges;
    var at := OvershootFires(xs, plan.start, plan.offset.lo, p.driftPpm);
    var scene := FoundedScene(xs, plan.offset.lo, plan.start, at, p.driftPpm);
    FairCaseIs(rows, runId, now, p, role, scene);
    LateIs(rows, runId, now, p, role, scene);
    IsExceeded(rows, runId, now, p, role, scene);
  }

  lemma IsExceeded(rows: seq<Observation>, runId: Identifier, now: Stamp, p: Policy, role: nat, scene: Scene)
    requires FairCase(rows, runId, now, p, role, scene) && Accepted(rows, runId, now, p) && role < |rows|
    requires StartError(scene, now.unix + p.lead) > ReportedUpper(rows, runId, now, p, role)
    ensures Exceeded(rows, runId, now, p, role)
  {
    hide Accepted, FairCase, StartError, ReportedUpper;
  }

  lemma FoundedScene(xs: seq<Exchange>, floor: int, start: int, at: real, ppm: int) returns (scene: Scene)
    requires |xs| > 0 && 0 <= ppm <= MILLION && CanFire(xs, start, at, ppm) && Founded(xs, floor)
    ensures Plausible(scene, xs, ppm) && scene.node(scene.at) == start as real && scene.coordinator(scene.at) == at
  {
    hide CanFire, Genuine, Plausible;
    scene := FiringScene(xs, start, at, ppm);
  }

  lemma OvershootFires(xs: seq<Exchange>, start: int, floor: int, ppm: int) returns (at: real)
    requires |xs| > 0 && 0 <= ppm <= MILLION && Founded(xs, floor)
    requires Reconcilable(xs, ppm) && Overshoots(xs, start, floor, ppm)
    ensures at > (start - floor) as real && CanFire(xs, start, at, ppm)
  {
    LowIsBelowHigh(xs);
    hide Genuine, Overshoots, Reconcilable, FiresAt, NotBefore;
    at := CanOvershoot(xs, start, floor, ppm);
    forall i | 0 <= i < |xs| ensures NotBefore(xs[i], start, at, ppm) {
      LateIsNotBefore(xs[i], start, floor, at, ppm);
    }
  }

  lemma ReadingsAllow(scene: Scene, xs: seq<Exchange>, floor: int, ppm: int, start: int)
    requires Plausible(scene, xs, ppm) && 0 <= ppm <= MILLION && scene.node(scene.at) == start as real
    requires Founded(xs, floor)
    ensures CanFire(xs, start, scene.coordinator(scene.at), ppm) && Reconcilable(xs, ppm)
  {
    hide Genuine, Reconcilable, Plausible, FiresAt, NotBefore;
    ClocksReconcile(scene, xs, ppm);
    AllFire(scene, xs, ppm, start);
  }

  lemma FairCaseOvershoots(rows: seq<Observation>, runId: Identifier, now: Stamp, p: Policy, role: nat, scene: Scene)
    requires Accepted(rows, runId, now, p) && role < |rows| && |rows[role].exchanges| == 3
    requires FairCase(rows, runId, now, p, role, scene)
    requires StartError(scene, now.unix + p.lead) > ReportedUpper(rows, runId, now, p, role)
    ensures var plan, xs := PlanFor(rows, runId, now, p, role), rows[role].exchanges;
      Reconcilable(xs, p.driftPpm) && Overshoots(xs, plan.start, plan.offset.lo, p.driftPpm)
  {
    hide *;
    AcceptedFacts(rows, runId, now, p, role);
    FairCaseIs(rows, runId, now, p, role, scene);
    LateIs(rows, runId, now, p, role, scene);
    var plan, xs := PlanFor(rows, runId, now, p, role), rows[role].exchanges;
    ReadingsAllow(scene, xs, plan.offset.lo, p.driftPpm, plan.start);
    MustOvershoot(xs, plan.start, plan.offset.lo, p.driftPpm, scene.coordinator(scene.at));
  }

  /** For each accepted proposal and role: exactly when the readings fit together and the drift overshoots. */
  lemma ErrorExceededIff(rows: seq<Observation>, runId: Identifier, now: Stamp, p: Policy, role: nat)
    requires Accepted(rows, runId, now, p) && role < |rows|
    ensures |rows[role].exchanges| == 3
    ensures Exceeded(rows, runId, now, p, role) <==>
      var plan, xs := PlanFor(rows, runId, now, p, role), rows[role].exchanges;
      Reconcilable(xs, p.driftPpm) && Overshoots(xs, plan.start, plan.offset.lo, p.driftPpm)
  {
    AcceptedRole(rows, runId, now, p, role);
    hide Accepted, PlanFor, Overshoots, Reconcilable, FairCase, StartError, ReportedUpper;
    var plan, xs := PlanFor(rows, runId, now, p, role), rows[role].exchanges;
    if Reconcilable(xs, p.driftPpm) && Overshoots(xs, plan.start, plan.offset.lo, p.driftPpm) {
      OvershootIsExceeded(rows, runId, now, p, role);
    }
    if scene :| FairCase(rows, runId, now, p, role, scene)
                && StartError(scene, now.unix + p.lead) > ReportedUpper(rows, runId, now, p, role) {
      FairCaseOvershoots(rows, runId, now, p, role, scene);
    }
  }

  lemma LateIsNotBefore(x: Exchange, start: int, floor: int, at: real, ppm: int)
    requires floor <= x.offset.hi && at > (start - floor) as real && FiresAt(x, start, at, ppm) && 0 <= ppm <= MILLION
    requires x.before.unix <= x.after.unix
    ensures NotBefore(x, start, at, ppm)
  {
    Scales(ppm, at - x.before.unix as real);
    hide Drift;
  }

  lemma LowIsBelowHigh(xs: seq<Exchange>)
    requires forall i :: 0 <= i < |xs| ==> Genuine(xs[i]) && xs[i].before.unix <= xs[i].after.unix
    ensures forall i :: 0 <= i < |xs| ==> xs[i].offset.lo <= xs[i].offset.hi
  {
  }

  lemma AllFire(scene: Scene, xs: seq<Exchange>, ppm: int, start: int)
    requires Plausible(scene, xs, ppm) && 0 <= ppm <= MILLION && scene.node(scene.at) == start as real
    requires forall i :: 0 <= i < |xs| ==> Genuine(xs[i])
    ensures forall i :: 0 <= i < |xs| ==>
      FiresAt(xs[i], start, scene.coordinator(scene.at), ppm)
        && NotBefore(xs[i], start, scene.coordinator(scene.at), ppm)
  {
    hide SightingPlausible, Genuine, FiresAt, NotBefore;
    forall i | 0 <= i < |xs|
      ensures FiresAt(xs[i], start, scene.coordinator(scene.at), ppm)
      ensures NotBefore(xs[i], start, scene.coordinator(scene.at), ppm)
    {
      FiringBound(scene, xs[i], scene.sightings[i], ppm, start);
      NotFiredBefore(scene, xs[i], scene.sightings[i], ppm, start);
    }
  }
}
