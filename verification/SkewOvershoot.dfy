/**
 When one cohort's own reported skew can be exceeded (scripts/pi_lab_clock.py:180-182): the coordinator times at which
 clocks within the assumptions may fire a role form a window that its exchanges and its start fix, and the reported
 skew fails exactly when two roles' windows reach further apart than it leaves beside one lateness.
 */
module SkewOvershoot {
  import opened Aggregates
  import opened ClockExchange
  import opened StartExactness
  import opened StartOvershoot
  import opened StartPlan
  import opened StartSoundness

  // ---- The window of firing times ----

  /** No clocks fire before an exchange has ended, nor before the fastest node they allow reaches its start. */
  function Soonest(x: Exchange, start: int, ppm: int): real
    requires 0 <= ppm
  {
    var reached := (1000000.0 * (start - x.offset.hi) as real + (ppm * x.before.unix) as real)
                   / (1000000.0 + ppm as real);
    if reached <= x.after.unix as real then x.after.unix as real else reached
  }

  /** Nor after the slowest node does. */
  function Latest(x: Exchange, start: int, ppm: int): real
    requires ppm < MILLION
  {
    (1000000.0 * (start - x.offset.lo) as real - (ppm * x.after.unix) as real) / (1000000.0 - ppm as real)
  }

  /** A node that may stand still fires at any later time, unless an exchange already read more than its start. */
  predicate InWindow(x: Exchange, start: int, at: real, ppm: int)
    requires 0 <= ppm <= MILLION
  {
    && Soonest(x, start, ppm) <= at
    && if ppm == MILLION then x.node.unix <= start else at <= Latest(x, start, ppm)
  }

  lemma AtMostRatio(at: real, top: real, bottom: real)
    requires bottom > 0.0
    ensures at <= top / bottom <==> at * bottom <= top
    ensures top / bottom <= at <==> top <= at * bottom
  {
    var ratio := top / bottom;
    assert ratio * bottom == top;
    assert (at - ratio) * bottom == at * bottom - top;
    if at > ratio { Positive(at - ratio, bottom); } else { NotPositive(at - ratio, bottom); }
  }

  lemma Positive(x: real, y: real)
    requires x > 0.0 && y > 0.0
    ensures x * y > 0.0
  {
  }

  lemma NotPositive(x: real, y: real)
    requires x <= 0.0 && y > 0.0
    ensures x * y <= 0.0
    ensures x < 0.0 ==> x * y < 0.0
  {
  }

  lemma DriftIs(ppm: int, at: real, from: int)
    ensures Drift(ppm, at - from as real) == at * ppm as real - (ppm * from) as real
  {
    assert (ppm * from) as real == ppm as real * from as real;
    assert ppm as real * (at - from as real) == ppm as real * at - ppm as real * from as real;
  }

  lemma FiresInWindow(x: Exchange, start: int, at: real, ppm: int)
    requires Genuine(x) && 0 <= ppm <= MILLION
    ensures FiresAt(x, start, at, ppm) && NotBefore(x, start, at, ppm) <==> InWindow(x, start, at, ppm)
  {
    assert x.offset.lo == x.node.unix - x.after.unix;
    hide Genuine;
    SoonestIs(x, start, at, ppm);
    if x.after.unix as real <= at { LatestIs(x, start, at, ppm); }
    hide Soonest, Latest, Drift;
  }

  lemma SoonestIs(x: Exchange, start: int, at: real, ppm: int)
    requires 0 <= ppm
    ensures Soonest(x, start, ppm) <= at <==> x.after.unix as real <= at && NotBefore(x, start, at, ppm)
  {
    DriftIs(ppm, at, x.before.unix);
    var top, bottom := 1000000.0 * (start - x.offset.hi) as real + (ppm * x.before.unix) as real,
      1000000.0 + ppm as real;
    assert at * bottom == 1000000.0 * at + at * ppm as real;
    hide Drift;
    AtMostRatio(at, top, bottom);
  }

  lemma LatestIs(x: Exchange, start: int, at: real, ppm: int)
    requires 0 <= ppm <= MILLION && x.after.unix as real <= at && x.offset.lo == x.node.unix - x.after.unix
    ensures FiresAt(x, start, at, ppm) <==>
      if ppm == MILLION then x.node.unix <= start else at <= Latest(x, start, ppm)
  {
    DriftIs(ppm, at, x.after.unix);
    if ppm < MILLION {
      var top := 1000000.0 * (start - x.offset.lo) as real - (ppm * x.after.unix) as real;
      var bottom := 1000000.0 - ppm as real;
      assert at * bottom == 1000000.0 * at - at * ppm as real;
      AtMostRatio(at, top, bottom);
    }
    hide Drift;
  }

  /** Some clocks within the assumptions fire this role at this coordinator time. */
  ghost predicate FiredAt(rows: seq<Observation>, runId: Identifier, now: Stamp, p: Policy, role: nat, at: real)
    requires Accepted(rows, runId, now, p) && role < |rows|
  {
    exists scene :: FairCase(rows, runId, now, p, role, scene) && scene.coordinator(scene.at) == at
  }

  lemma AllowedIsFired(rows: seq<Observation>, runId: Identifier, now: Stamp, p: Policy, role: nat, at: real)
    requires Accepted(rows, runId, now, p) && role < |rows|
    requires CanFire(rows[role].exchanges, PlanFor(rows, runId, now, p, role).start, at, p.driftPpm)
    ensures FiredAt(rows, runId, now, p, role, at)
  {
    hide *;
    AcceptedFacts(rows, runId, now, p, role);
    var plan, xs := PlanFor(rows, runId, now, p, role), rows[role].exchanges;
    var scene := FoundedScene(xs, plan.offset.lo, plan.start, at, p.driftPpm);
    FairCaseIs(rows, runId, now, p, role, scene);
    IsFired(rows, runId, now, p, role, scene, at);
  }

  lemma IsFired(rows: seq<Observation>, runId: Identifier, now: Stamp, p: Policy, role: nat, scene: Scene, at: real)
    requires Accepted(rows, runId, now, p) && role < |rows|
    requires FairCase(rows, runId, now, p, role, scene) && scene.coordinator(scene.at) == at
    ensures FiredAt(rows, runId, now, p, role, at)
  {
    hide Accepted, FairCase;
  }

  lemma FairCaseCanFire(rows: seq<Observation>, runId: Identifier, now: Stamp, p: Policy, role: nat, scene: Scene)
    requires Accepted(rows, runId, now, p) && role < |rows| && FairCase(rows, runId, now, p, role, scene)
    ensures CanFire(rows[role].exchanges, PlanFor(rows, runId, now, p, role).start, scene.coordinator(scene.at),
                    p.driftPpm)
  {
    hide *;
    AcceptedFacts(rows, runId, now, p, role);
    FairCaseIs(rows, runId, now, p, role, scene);
    var plan := PlanFor(rows, runId, now, p, role);
    ReadingsAllow(scene, rows[role].exchanges, plan.offset.lo, p.driftPpm, plan.start);
  }

  lemma CanFireIff(xs: seq<Exchange>, start: int, at: real, ppm: int)
    requires 0 <= ppm <= MILLION && forall i :: 0 <= i < |xs| ==> Genuine(xs[i])
    ensures CanFire(xs, start, at, ppm) <==>
      Reconcilable(xs, ppm) && forall i :: 0 <= i < |xs| ==> InWindow(xs[i], start, at, ppm)
  {
    hide Genuine, Reconcilable, FiresAt, NotBefore, InWindow;
    forall i | 0 <= i < |xs|
      ensures FiresAt(xs[i], start, at, ppm) && NotBefore(xs[i], start, at, ppm) <==> InWindow(xs[i], start, at, ppm)
    {
      FiresInWindow(xs[i], start, at, ppm);
    }
  }

  lemma FoundedIsGenuine(xs: seq<Exchange>, floor: int)
    requires Founded(xs, floor)
    ensures forall i :: 0 <= i < |xs| ==> Genuine(xs[i])
  {
    hide Genuine;
  }

  /** A role's firing times are exactly those in the window of each of its exchanges, if its readings fit together. */
  lemma FiringTimesIff(rows: seq<Observation>, runId: Identifier, now: Stamp, p: Policy, role: nat, at: real)
    requires Accepted(rows, runId, now, p) && role < |rows|
    ensures 0 <= p.driftPpm <= MILLION
    ensures FiredAt(rows, runId, now, p, role, at) <==>
      var xs := rows[role].exchanges;
      Reconcilable(xs, p.driftPpm)
      && forall i :: 0 <= i < |xs| ==> InWindow(xs[i], PlanFor(rows, runId, now, p, role).start, at, p.driftPpm)
  {
    AcceptedFacts(rows, runId, now, p, role);
    var plan := PlanFor(rows, runId, now, p, role);
    FoundedIsGenuine(rows[role].exchanges, plan.offset.lo);
    hide Accepted, PlanFor, CanFire, FairCase, Genuine, Founded, Reconcilable, InWindow;
    CanFireIff(rows[role].exchanges, plan.start, at, p.driftPpm);
    if CanFire(rows[role].exchanges, plan.start, at, p.driftPpm) {
      AllowedIsFired(rows, runId, now, p, role, at);
    }
    if scene :| FairCase(rows, runId, now, p, role, scene) && scene.coordinator(scene.at) == at {
      FairCaseCanFire(rows, runId, now, p, role, scene);
    }
  }

  // ---- Two roles ----

  /** The readings fit together and every exchange's window opens before any closes. */
  predicate Timely(xs: seq<Exchange>, start: int, ppm: int)
    requires 0 <= ppm <= MILLION
  {
    && Reconcilable(xs, ppm)
    && forall i, j :: 0 <= i < |xs| && 0 <= j < |xs| ==>
         if ppm == MILLION then xs[i].node.unix <= start
         else Soonest(xs[i], start, ppm) <= Latest(xs[j], start, ppm)
  }

  /** Every window of the one role closes this much after any of the other opens, or may stay open for good. */
  predicate FarApart(xs: seq<Exchange>, start: int, ys: seq<Exchange>, other: int, apart: int, ppm: int)
    requires 0 <= ppm <= MILLION
  {
    && Timely(xs, start, ppm) && Timely(ys, other, ppm)
    && (ppm < MILLION ==> forall i, j :: 0 <= i < |xs| && 0 <= j < |ys| ==>
          Latest(xs[i], start, ppm) - Soonest(ys[j], other, ppm) > apart as real)
  }

  lemma TimelyIfFired(xs: seq<Exchange>, start: int, at: real, ppm: int)
    requires 0 <= ppm <= MILLION && Reconcilable(xs, ppm)
    requires forall i :: 0 <= i < |xs| ==> InWindow(xs[i], start, at, ppm)
    ensures Timely(xs, start, ppm)
  {
    hide Soonest, Latest, Reconcilable;
  }

  lemma FarApartIfFired(xs: seq<Exchange>, start: int, u: real, ys: seq<Exchange>, other: int, v: real, apart: int,
                        ppm: int)
    requires 0 <= ppm <= MILLION && Reconcilable(xs, ppm) && Reconcilable(ys, ppm) && u - v > apart as real
    requires forall i :: 0 <= i < |xs| ==> InWindow(xs[i], start, u, ppm)
    requires forall j :: 0 <= j < |ys| ==> InWindow(ys[j], other, v, ppm)
    ensures FarApart(xs, start, ys, other, apart, ppm)
  {
    TimelyIfFired(xs, start, u, ppm);
    TimelyIfFired(ys, other, v, ppm);
    hide Soonest, Latest, Reconcilable, Timely;
  }

  /** The last of the windows to open. */
  lemma LastToOpen(xs: seq<Exchange>, start: int, ppm: int) returns (k: nat)
    requires |xs| > 0 && 0 <= ppm
    ensures k < |xs| && forall i :: 0 <= i < |xs| ==> Soonest(xs[i], start, ppm) <= Soonest(xs[k], start, ppm)
  {
    hide Soonest;
    if |xs| == 1 {
      k := 0;
    } else {
      var n := |xs| - 1;
      k := LastToOpen(xs[..n], start, ppm);
      if Soonest(xs[k], start, ppm) < Soonest(xs[n], start, ppm) { k := n; }
    }
  }

  lemma FirstToClose(xs: seq<Exchange>, start: int, ppm: int) returns (k: nat)
    requires |xs| > 0 && ppm < MILLION
    ensures k < |xs| && forall i :: 0 <= i < |xs| ==> Latest(xs[k], start, ppm) <= Latest(xs[i], start, ppm)
  {
    hide Latest;
    if |xs| == 1 {
      k := 0;
    } else {
      var n := |xs| - 1;
      k := FirstToClose(xs[..n], start, ppm);
      if Latest(xs[n], start, ppm) < Latest(xs[k], start, ppm) { k := n; }
    }
  }

  lemma FiredIfFarApart(xs: seq<Exchange>, start: int, ys: seq<Exchange>, other: int, apart: int, ppm: int)
    returns (u: real, v: real)
    requires |xs| > 0 && |ys| > 0 && 0 <= ppm <= MILLION && FarApart(xs, start, ys, other, apart, ppm)
    ensures u - v > apart as real
    ensures forall i :: 0 <= i < |xs| ==> InWindow(xs[i], start, u, ppm)
    ensures forall j :: 0 <= j < |ys| ==> InWindow(ys[j], other, v, ppm)
  {
    hide Soonest, Latest, Reconcilable;
    var k := LastToOpen(ys, other, ppm);
    v := Soonest(ys[k], other, ppm);
    var open := LastToOpen(xs, start, ppm);
    u := Soonest(xs[open], start, ppm);
    if ppm == MILLION {
      if u <= v + apart as real { u := v + apart as real + 1.0; }
    } else {
      var close := FirstToClose(xs, start, ppm);
      u := Latest(xs[close], start, ppm);
    }
  }

  ghost predicate PairExceeds(rows: seq<Observation>, runId: Identifier, now: Stamp, p: Policy,
                              a: nat, sceneA: Scene, startA: real, b: nat, sceneB: Scene, startB: real)
    requires Accepted(rows, runId, now, p)
  {
    && FairPair(rows, runId, now, p, a, sceneA, startA, b, sceneB, startB)
    && startA - startB > SkewFor(rows, runId, now, p) as real
  }

  /** Some clocks within the assumptions start two roles further apart than the reported skew. */
  ghost predicate SkewExceeded(rows: seq<Observation>, runId: Identifier, now: Stamp, p: Policy)
    requires Accepted(rows, runId, now, p)
  {
    exists a: nat, sceneA, startA, b: nat, sceneB, startB ::
      PairExceeds(rows, runId, now, p, a, sceneA, startA, b, sceneB, startB)
  }

  /** Two roles whose readings allow firing times further apart than the reported skew leaves beside one lateness. */
  ghost predicate FarFirings(rows: seq<Observation>, runId: Identifier, now: Stamp, p: Policy, a: nat, u: real, b: nat,
                             v: real)
    requires Accepted(rows, runId, now, p)
  {
    && a < |rows| && b < |rows| && a != b && u - v > (SkewFor(rows, runId, now, p) - p.maxLateness) as real
    && CanFire(rows[a].exchanges, PlanFor(rows, runId, now, p, a).start, u, p.driftPpm)
    && CanFire(rows[b].exchanges, PlanFor(rows, runId, now, p, b).start, v, p.driftPpm)
  }

  lemma StartsLate(rows: seq<Observation>, runId: Identifier, now: Stamp, p: Policy, role: nat, scene: Scene,
                   start: real)
    requires FairCase(rows, runId, now, p, role, scene)
    requires 0.0 <= start - scene.coordinator(scene.at) <= p.maxLateness as real
    ensures StartsAt(scene, rows, runId, now, p, role, start)
  {
    hide Accepted, Plausible, Fires, Proposal;
  }

  lemma FarFiringsExceed(rows: seq<Observation>, runId: Identifier, now: Stamp, p: Policy, a: nat, u: real, b: nat,
                         v: real)
    requires Accepted(rows, runId, now, p) && FarFirings(rows, runId, now, p, a, u, b, v)
    ensures SkewExceeded(rows, runId, now, p)
  {
    hide *;
    FarFiringsAre(rows, runId, now, p, a, u, b, v);
    var sceneA := SceneFiringAt(rows, runId, now, p, a, u);
    var sceneB := SceneFiringAt(rows, runId, now, p, b, v);
    StartsLate(rows, runId, now, p, a, sceneA, u + p.maxLateness as real);
    StartsLate(rows, runId, now, p, b, sceneB, v);
    SkewIsExceeded(rows, runId, now, p, a, sceneA, u + p.maxLateness as real, b, sceneB, v);
  }

  lemma FarFiringsAre(rows: seq<Observation>, runId: Identifier, now: Stamp, p: Policy, a: nat, u: real, b: nat,
                      v: real)
    requires Accepted(rows, runId, now, p) && FarFirings(rows, runId, now, p, a, u, b, v)
    ensures 0 <= p.maxLateness && a < |rows| && b < |rows| && a != b
    ensures u + p.maxLateness as real - v > SkewFor(rows, runId, now, p) as real
    ensures CanFire(rows[a].exchanges, PlanFor(rows, runId, now, p, a).start, u, p.driftPpm)
    ensures CanFire(rows[b].exchanges, PlanFor(rows, runId, now, p, b).start, v, p.driftPpm)
  {
    AcceptedFacts(rows, runId, now, p, a);
    hide Accepted, PlanFor, SkewFor, CanFire;
  }

  lemma SceneFiringAt(rows: seq<Observation>, runId: Identifier, now: Stamp, p: Policy, role: nat, at: real)
    returns (scene: Scene)
    requires Accepted(rows, runId, now, p) && role < |rows|
    requires CanFire(rows[role].exchanges, PlanFor(rows, runId, now, p, role).start, at, p.driftPpm)
    ensures FairCase(rows, runId, now, p, role, scene) && scene.coordinator(scene.at) == at
  {
    AllowedIsFired(rows, runId, now, p, role, at);
    hide Accepted, FairCase, CanFire, PlanFor;
    scene :| FairCase(rows, runId, now, p, role, scene) && scene.coordinator(scene.at) == at;
  }

  lemma SkewIsExceeded(rows: seq<Observation>, runId: Identifier, now: Stamp, p: Policy,
                       a: nat, sceneA: Scene, startA: real, b: nat, sceneB: Scene, startB: real)
    requires Accepted(rows, runId, now, p) && a < |rows| && b < |rows| && a != b
    requires StartsAt(sceneA, rows, runId, now, p, a, startA) && StartsAt(sceneB, rows, runId, now, p, b, startB)
    requires startA - startB > SkewFor(rows, runId, now, p) as real
    ensures SkewExceeded(rows, runId, now, p)
  {
    hide Accepted, SkewFor, StartsAt;
    assert PairExceeds(rows, runId, now, p, a, sceneA, startA, b, sceneB, startB);
  }

  lemma ExceedsByFirings(rows: seq<Observation>, runId: Identifier, now: Stamp, p: Policy,
                         a: nat, sceneA: Scene, startA: real, b: nat, sceneB: Scene, startB: real)
    requires Accepted(rows, runId, now, p)
    requires PairExceeds(rows, runId, now, p, a, sceneA, startA, b, sceneB, startB)
    ensures FarFirings(rows, runId, now, p, a, sceneA.coordinator(sceneA.at), b, sceneB.coordinator(sceneB.at))
  {
    hide Accepted, Proposal, CanFire, Plausible, Fires;
    assert FairCase(rows, runId, now, p, a, sceneA) && FairCase(rows, runId, now, p, b, sceneB);
    FairCaseCanFire(rows, runId, now, p, a, sceneA);
    FairCaseCanFire(rows, runId, now, p, b, sceneB);
  }

  /** The windows of two roles of an accepted cohort reach further apart than its reported skew leaves. */
  ghost predicate RolesFarApart(rows: seq<Observation>, runId: Identifier, now: Stamp, p: Policy, a: nat, b: nat)
    requires Accepted(rows, runId, now, p)
  {
    && a < |rows| && b < |rows| && a != b
    && FarApart(rows[a].exchanges, PlanFor(rows, runId, now, p, a).start,
                rows[b].exchanges, PlanFor(rows, runId, now, p, b).start,
                SkewFor(rows, runId, now, p) - p.maxLateness, p.driftPpm)
  }

  lemma FarApartIsFar(rows: seq<Observation>, runId: Identifier, now: Stamp, p: Policy, a: nat, b: nat)
    returns (u: real, v: real)
    requires Accepted(rows, runId, now, p) && RolesFarApart(rows, runId, now, p, a, b)
    ensures FarFirings(rows, runId, now, p, a, u, b, v)
  {
    AcceptedFacts(rows, runId, now, p, a);
    AcceptedFacts(rows, runId, now, p, b);
    var xs, ys := rows[a].exchanges, rows[b].exchanges;
    var planA, planB := PlanFor(rows, runId, now, p, a), PlanFor(rows, runId, now, p, b);
    FoundedIsGenuine(xs, planA.offset.lo);
    FoundedIsGenuine(ys, planB.offset.lo);
    hide Accepted, PlanFor, SkewFor, CanFire, Genuine, Founded, Reconcilable, InWindow, Latest, Soonest;
    u, v := FiredIfFarApart(xs, planA.start, ys, planB.start, SkewFor(rows, runId, now, p) - p.maxLateness, p.driftPpm);
    CanFireIff(xs, planA.start, u, p.driftPpm);
    CanFireIff(ys, planB.start, v, p.driftPpm);
  }

  lemma FarIsFarApart(rows: seq<Observation>, runId: Identifier, now: Stamp, p: Policy, a: nat, u: real, b: nat,
                      v: real)
    requires Accepted(rows, runId, now, p) && FarFirings(rows, runId, now, p, a, u, b, v)
    ensures RolesFarApart(rows, runId, now, p, a, b)
  {
    AcceptedFacts(rows, runId, now, p, a);
    AcceptedFacts(rows, runId, now, p, b);
    var xs, ys := rows[a].exchanges, rows[b].exchanges;
    var planA, planB := PlanFor(rows, runId, now, p, a), PlanFor(rows, runId, now, p, b);
    FoundedIsGenuine(xs, planA.offset.lo);
    FoundedIsGenuine(ys, planB.offset.lo);
    hide Accepted, PlanFor, SkewFor, CanFire, Genuine, Founded, Reconcilable, InWindow, FarApart;
    CanFireIff(xs, planA.start, u, p.driftPpm);
    CanFireIff(ys, planB.start, v, p.driftPpm);
    FarApartIfFired(xs, planA.start, u, ys, planB.start, v, SkewFor(rows, runId, now, p) - p.maxLateness, p.driftPpm);
  }

  /** The reported skew of one accepted cohort can be exceeded exactly when two roles' windows reach that far apart. */
  lemma SkewExceededIff(rows: seq<Observation>, runId: Identifier, now: Stamp, p: Policy)
    requires Accepted(rows, runId, now, p)
    ensures SkewExceeded(rows, runId, now, p) <==> exists a: nat, b: nat :: RolesFarApart(rows, runId, now, p, a, b)
  {
    hide Accepted, PairExceeds, FarFirings, RolesFarApart;
    if a: nat, b: nat :| RolesFarApart(rows, runId, now, p, a, b) {
      var u, v := FarApartIsFar(rows, runId, now, p, a, b);
      FarFiringsExceed(rows, runId, now, p, a, u, b, v);
    }
    if a: nat, sceneA, startA, b: nat, sceneB, startB :|
      PairExceeds(rows, runId, now, p, a, sceneA, startA, b, sceneB, startB)
    {
      ExceedsByFirings(rows, runId, now, p, a, sceneA, startA, b, sceneB, startB);
      FarIsFarApart(rows, runId, now, p, a, sceneA.coordinator(sceneA.at), b, sceneB.coordinator(sceneB.at));
    }
  }
}
