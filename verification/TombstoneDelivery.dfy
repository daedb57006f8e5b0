/**
 Delivery of every kind of gossip in any order (crates/orishu-membership/tests/convergence.rs:460-500): a tombstone
 fences the records of its node and frees its place. Nodes that hear the same deltas agree exactly when each kind of
 delta is compatible by itself, nobody comes back, and those who only pass through take no newcomer's place.
 */
module TombstoneDelivery {
  import opened Aggregates
  import opened GossipDelivery
  import opened MemberMerge
  import opened Versions
  import MemberDelivery
  import Registers

  /** The nodes a tombstone heard is newer for than what is held. */
  ghost function Removals(rules: Rules, r: Replica, ds: seq<Delta>): set<NodeId> {
    set d | d in ds && d.Removed? && Registers.Takes(rules.tombstones, r.tombstones, d.tombstone) :: d.tombstone.key
  }

  ghost predicate Buries(rules: Rules, r: Replica, ds: seq<Delta>, id: NodeId,
                         t: Registers.Entry<NodeId, Removal>) {
    Registers.Counts(rules.tombstones, r.tombstones, TombNews(ds), id, t)
  }

  /** The members no tombstone removes, and the fences once all tombstones are heard or on their way. */
  ghost function Stayers(rules: Rules, r: Replica, ds: seq<Delta>): Members { r.members - Removals(rules, r, ds) }

  ghost function Fences(rules: Rules, r: Replica, ds: seq<Delta>): Formation {
    Under(rules, r.tombstones).(tombstoned := Fenced(r.tombstones) + Removals(rules, r, ds))
  }

  /** Somebody tells of this node. */
  ghost predicate Told(rules: Rules, ds: seq<Delta>, id: NodeId) {
    id != rules.localId && exists d :: Said(d) in ds && d.id == id && rules.valid(d)
  }

  /** A removed node whose last tombstone is cleared may come back. */
  ghost predicate Readmitted(rules: Rules, r: Replica, ds: seq<Delta>, id: NodeId) {
    Told(rules, ds, id) && exists t ::
      Registers.Topmost(rules.tombstones, r.tombstones, TombNews(ds), id, t) && t.content.cleared
  }

  /** Removed nodes that may be members for a while: told of, and not fenced all the time. */
  ghost function Passing(rules: Rules, r: Replica, ds: seq<Delta>): set<NodeId> {
    set id | id in Removals(rules, r, ds) && Told(rules, ds, id) && MayPass(rules, r, ds, id)
  }

  ghost predicate MayPass(rules: Rules, r: Replica, ds: seq<Delta>, id: NodeId) {
    id !in Fenced(r.tombstones) || exists t :: Buries(rules, r, ds, id, t) && t.content.cleared
  }

  ghost function Joining(rules: Rules, r: Replica, ds: seq<Delta>): set<NodeId> {
    MemberDelivery.Newcomers(Fences(rules, r, ds), Stayers(rules, r, ds), Sayings(ds))
  }

  /** All that can ever be members together. */
  ghost function Crowd(rules: Rules, r: Replica, ds: seq<Delta>): set<NodeId> {
    r.members.Keys + Joining(rules, r, ds) + Passing(rules, r, ds)
  }

  /** There is never room, or nobody comes back and no newcomer can be crowded out. */
  ghost predicate Unhindered(rules: Rules, r: Replica, ds: seq<Delta>) {
    || |Stayers(rules, r, ds)| >= rules.maxMembers
    || ((forall id :: !Readmitted(rules, r, ds, id))
        && (Joining(rules, r, ds) == {} || |Crowd(rules, r, ds)| <= rules.maxMembers))
  }

  ghost predicate RegistersCompatible(rules: Rules, r: Replica, ds: seq<Delta>) {
    && Registers.Compatible(rules.tombstones, r.tombstones, TombNews(ds))
    && Registers.Compatible(rules.blocklist, r.blocklist, Listings(ds))
    && Registers.Compatible(ONE_POLICY, r.policy, Policies(ds))
  }

  ghost predicate Compatible(rules: Rules, r: Replica, ds: seq<Delta>) {
    && RegistersCompatible(rules, r, ds)
    && MemberDelivery.Compatible(Fences(rules, r, ds), Stayers(rules, r, ds), Sayings(ds))
    && Unhindered(rules, r, ds)
  }

  ghost predicate OrdersAgree(rules: Rules, r: Replica, ds: seq<Delta>) {
    forall p :: multiset(p) == multiset(ds) ==> Deliver(rules, r, p) == Deliver(rules, r, ds)
  }

  ghost predicate Within(ps: seq<Delta>, ds: seq<Delta>) { forall d :: d in ps ==> d in ds }

  // ---- Tombstones along the way ----

  ghost function Tomb(ts: Tombstones, id: NodeId): Option<Registers.Entry<NodeId, Removal>> { Registers.At(ts, id) }

  /** Every node's tombstone is the one held at first or one that counted. */
  ghost predicate Buried(rules: Rules, r: Replica, ds: seq<Delta>, ts: Tombstones) {
    forall id :: Tomb(ts, id) == Tomb(r.tombstones, id) || (id in ts && Buries(rules, r, ds, id, ts[id]))
  }

  lemma NewsWithin(ps: seq<Delta>, ds: seq<Delta>, e: Registers.Entry<NodeId, Removal>)
    requires Within(ps, ds) && Some(e) in TombNews(ps)
    ensures Some(e) in TombNews(ds) && Removed(e) in ds
  {
    var i :| 0 <= i < |ps| && TombNews(ps)[i] == Some(e);
    assert ps[i] == Removed(e) && ps[i] in ps;
    var j :| 0 <= j < |ds| && ds[j] == Removed(e);
    assert TombNews(ds)[j] == Some(e);
  }

  lemma BuriesRemoves(rules: Rules, r: Replica, ds: seq<Delta>, id: NodeId, t: Registers.Entry<NodeId, Removal>)
    requires Buries(rules, r, ds, id, t)
    ensures id in Removals(rules, r, ds) && Removed(t) in ds
  {
    NewsWithin(ds, ds, t);
    hide TombNews;
  }

  lemma RemovesBuries(rules: Rules, r: Replica, ds: seq<Delta>, id: NodeId)
    returns (t: Registers.Entry<NodeId, Removal>)
    requires id in Removals(rules, r, ds)
    ensures Buries(rules, r, ds, id, t)
  {
    var d :| d in ds && d.Removed? && Registers.Takes(rules.tombstones, r.tombstones, d.tombstone)
             && d.tombstone.key == id;
    t := d.tombstone;
    TombIsNews(ds, t);
    hide TombNews;
  }

  lemma TombIsNews(ds: seq<Delta>, t: Registers.Entry<NodeId, Removal>)
    requires Removed(t) in ds
    ensures Some(t) in TombNews(ds)
  {
    var i :| 0 <= i < |ds| && ds[i] == Removed(t);
    assert TombNews(ds)[i] == Some(t);
  }

  lemma RoomyWithin(rules: Rules, r: Replica, ds: seq<Delta>, ps: seq<Delta>)
    requires Within(ps, ds) && Registers.Roomy(rules.tombstones, r.tombstones, TombNews(ds))
    ensures Registers.Roomy(rules.tombstones, r.tombstones, TombNews(ps))
  {
    var k, held := rules.tombstones, r.tombstones;
    forall e | e in TombNews(ps) && e.Some? ensures e in TombNews(ds) { NewsWithin(ps, ds, e.value); }
    hide TombNews;
    assert Registers.NewKeys(k, held, TombNews(ps)) <= Registers.NewKeys(k, held, TombNews(ds));
    Subset(held.Keys + Registers.NewKeys(k, held, TombNews(ps)), held.Keys + Registers.NewKeys(k, held, TombNews(ds)));
  }

  lemma TombstonesSettle(rules: Rules, r: Replica, ds: seq<Delta>, ps: seq<Delta>)
    requires Within(ps, ds) && Registers.Roomy(rules.tombstones, r.tombstones, TombNews(ds))
    ensures var ts := Deliver(rules, r, ps).tombstones;
      Registers.AllSettled(rules.tombstones, r.tombstones, TombNews(ps), ts) && Buried(rules, r, ds, ts)
    ensures Registers.Roomy(rules.tombstones, r.tombstones, TombNews(ps))
  {
    RoomyWithin(rules, r, ds, ps);
    RegistersSee(rules, r, ps);
    Registers.DeliverySettles(rules.tombstones, r.tombstones, TombNews(ps));
    var ts := Deliver(rules, r, ps).tombstones;
    hide Deliver, Registers.Run, Registers.AllSettled, Registers.Roomy;
    forall id ensures Tomb(ts, id) == Tomb(r.tombstones, id) || (id in ts && Buries(rules, r, ds, id, ts[id])) {
      Registers.SettledAt(rules.tombstones, r.tombstones, TombNews(ps), ts, id);
      if id in ts && Some(ts[id]) in TombNews(ps) { NewsWithin(ps, ds, ts[id]); }
      hide TombNews;
    }
  }

  /** Nodes no tombstone removes keep their fences, or their lack of one. */
  lemma FencesStand(rules: Rules, r: Replica, ds: seq<Delta>, ts: Tombstones, id: NodeId)
    requires Buried(rules, r, ds, ts) && id !in Removals(rules, r, ds)
    ensures id in Fenced(ts) <==> id in Fences(rules, r, ds).tombstoned
  {
    assert Tomb(ts, id) == Tomb(r.tombstones, id) || (id in ts && Buries(rules, r, ds, id, ts[id]));
    if id in ts && Buries(rules, r, ds, id, ts[id]) { BuriesRemoves(rules, r, ds, id, ts[id]); }
    hide Removals, Buries;
  }

  // ---- Members along the way ----

  ghost predicate Gone(rules: Rules, r: Replica, ds: seq<Delta>, u: Replica, id: NodeId) {
    id in u.members && Tomb(u.tombstones, id) != Tomb(r.tombstones, id) ==>
      |Stayers(rules, r, ds)| < rules.maxMembers && Told(rules, ds, id) && id !in Fenced(u.tombstones)
  }

  /**
   Apart from the nodes tombstones remove, members are what the records alone make of the stayers; the removed ones
   stay away unless readmitted, and nobody outside the crowd ever is a member.
   */
  ghost predicate Tracks(rules: Rules, r: Replica, ds: seq<Delta>, s: Members, u: Replica) {
    && (forall id :: id !in Removals(rules, r, ds) ==> MemberDelivery.At(u.members, id) == MemberDelivery.At(s, id))
    && (|Stayers(rules, r, ds)| < rules.maxMembers ==> u.members.Keys <= Crowd(rules, r, ds))
    && (forall id :: id in Removals(rules, r, ds) ==> Gone(rules, r, ds, u, id))
  }

  /** What the records alone make of the stayers. */
  ghost function Alone(rules: Rules, r: Replica, ds: seq<Delta>, ps: seq<Delta>): Members {
    Run(Fences(rules, r, ds), Stayers(rules, r, ds), Sayings(ps))
  }

  ghost predicate Apart(s: Members, gone: set<NodeId>) { forall id :: id in s ==> id !in gone }

  lemma AloneSteps(f: Formation, b: Members, gone: set<NodeId>, ps: seq<Delta>)
    requires gone <= f.tombstoned && Apart(b, gone)
    ensures b.Keys <= Run(f, b, Sayings(ps)).Keys && |b| <= |Run(f, b, Sayings(ps))|
    ensures Apart(Run(f, b, Sayings(ps)), gone)
  {
    MemberDelivery.KeysGrow(f, b, Sayings(ps));
  }

  lemma Fits(s: Members, t: Members, gone: set<NodeId>)
    requires Apart(s, gone) && forall id :: id !in gone ==> MemberDelivery.At(t, id) == MemberDelivery.At(s, id)
    ensures s.Keys <= t.Keys && |s| <= |t|
  {
    forall id | id in s ensures id in t { assert MemberDelivery.At(t, id) == MemberDelivery.At(s, id); }
    Subset(s.Keys, t.Keys);
    assert |s| == |s.Keys| && |t| == |t.Keys|;
  }

  lemma SaidElsewhere(rules: Rules, f: Formation, ts: Tombstones, t: Members, s: Members, d: Member)
    requires f == Under(rules, ts).(tombstoned := f.tombstoned) && (d.id in Fenced(ts) <==> d.id in f.tombstoned)
    requires MemberDelivery.At(t, d.id) == MemberDelivery.At(s, d.id) && |s| <= |t|
    requires |s| >= rules.maxMembers || (Heard(f, d) && d.id !in t ==> |t| < rules.maxMembers)
    ensures MemberDelivery.At(Step(Under(rules, ts), t, d), d.id) == MemberDelivery.At(Step(f, s, d), d.id)
  {
    hide Absorbed, Fenced;
  }

  lemma StepElsewhere(f: Formation, t: Members, d: Member, id: NodeId)
    requires id != d.id
    ensures MemberDelivery.At(Step(f, t, d), id) == MemberDelivery.At(t, id)
  {
    hide Absorbed, Heard;
  }

  /** A newcomer of whom the stayers hear always finds room. */
  lemma RoomStays(rules: Rules, r: Replica, ds: seq<Delta>, s: Members, u: Replica, d: Member)
    requires Unhindered(rules, r, ds) && Tracks(rules, r, ds, s, u) && Said(d) in ds
    requires Stayers(rules, r, ds).Keys <= s.Keys && |Stayers(rules, r, ds)| < rules.maxMembers
    requires Heard(Fences(rules, r, ds), d) && d.id !in u.members
    ensures |u.members| < rules.maxMembers
  {
    var f, b := Fences(rules, r, ds), Stayers(rules, r, ds);
    assert d.id !in Removals(rules, r, ds);
    assert MemberDelivery.At(u.members, d.id) == MemberDelivery.At(s, d.id);
    assert d.id !in b;
    NewcomerJoins(rules, r, ds, d);
    hide Tracks, Joining, Passing, Readmitted, Stayers, Removals, Fences;
    assert u.members.Keys <= Crowd(rules, r, ds) && d.id in Crowd(rules, r, ds);
    hide Crowd;
    Fewer(u.members.Keys, Crowd(rules, r, ds), d.id);
    assert |u.members| == |u.members.Keys|;
  }

  ghost predicate Ready(rules: Rules, r: Replica, ds: seq<Delta>, s: Members, u: Replica) {
    && Unhindered(rules, r, ds) && Tracks(rules, r, ds, s, u) && Buried(rules, r, ds, u.tombstones)
    && Apart(s, Removals(rules, r, ds)) && Stayers(rules, r, ds).Keys <= s.Keys
  }

  /** A record about a node no tombstone removes does what it does alone. */
  lemma SaidOfStayer(rules: Rules, r: Replica, ds: seq<Delta>, s: Members, u: Replica, d: Member)
    requires Ready(rules, r, ds, s, u) && Said(d) in ds && d.id !in Removals(rules, r, ds)
    ensures var after := Step(Under(rules, u.tombstones), u.members, d);
      MemberDelivery.At(after, d.id) == MemberDelivery.At(Step(Fences(rules, r, ds), s, d), d.id)
      && (|Stayers(rules, r, ds)| < rules.maxMembers && d.id in after ==> d.id in Crowd(rules, r, ds))
  {
    var f, b := Fences(rules, r, ds), Stayers(rules, r, ds);
    assert f == Under(rules, u.tombstones).(tombstoned := f.tombstoned);
    assert MemberDelivery.At(u.members, d.id) == MemberDelivery.At(s, d.id);
    FencesStand(rules, r, ds, u.tombstones, d.id);
    Fits(s, u.members, Removals(rules, r, ds));
    Subset(b.Keys, s.Keys);
    assert |b| == |b.Keys| && |s| == |s.Keys|;
    if |b| < rules.maxMembers && Heard(f, d) && d.id !in u.members { RoomStays(rules, r, ds, s, u, d); }
    SaidElsewhere(rules, f, u.tombstones, u.members, s, d);
    if |b| < rules.maxMembers { InCrowd(rules, r, ds, s, u, d); }
    hide *;
  }

  lemma InCrowd(rules: Rules, r: Replica, ds: seq<Delta>, s: Members, u: Replica, d: Member)
    requires Ready(rules, r, ds, s, u) && Said(d) in ds && d.id !in Removals(rules, r, ds)
    requires |Stayers(rules, r, ds)| < rules.maxMembers
    ensures d.id in Step(Under(rules, u.tombstones), u.members, d) ==> d.id in Crowd(rules, r, ds)
  {
    FencesStand(rules, r, ds, u.tombstones, d.id);
    assert u.members.Keys <= Crowd(rules, r, ds);
    assert MemberDelivery.At(u.members, d.id) == MemberDelivery.At(s, d.id);
    var f, now := Fences(rules, r, ds), Under(rules, u.tombstones);
    assert Heard(now, d) <==> Heard(f, d);
    assert d.id !in u.members ==> d.id !in Stayers(rules, r, ds);
    hide *;
    if Heard(f, d) && d.id !in u.members { NewcomerJoins(rules, r, ds, d); }
    StepKeys(now, u.members, d);
  }

  lemma StepKeys(f: Formation, t: Members, d: Member)
    ensures d.id in Step(f, t, d) ==> d.id in t || Heard(f, d)
  {
    hide Heard, Absorbed;
  }

  lemma NewcomerJoins(rules: Rules, r: Replica, ds: seq<Delta>, d: Member)
    requires Said(d) in ds && Heard(Fences(rules, r, ds), d) && d.id !in Stayers(rules, r, ds)
    requires |Stayers(rules, r, ds)| < rules.maxMembers
    ensures d.id in Joining(rules, r, ds) && d.id in Crowd(rules, r, ds)
  {
    var f, b := Fences(rules, r, ds), Stayers(rules, r, ds);
    assert f.maxMembers == rules.maxMembers && d in Sayings(ds) && MemberDelivery.Counts(f, b, d);
    MemberDelivery.Comes(f, b, Sayings(ds), d);
    hide Sayings, Fences, Stayers, Passing, MemberDelivery.Newcomers;
  }

  /** A record about a removed node is heard only between fences. */
  lemma SaidOfRemoved(rules: Rules, r: Replica, ds: seq<Delta>, s: Members, u: Replica, d: Member)
    requires Ready(rules, r, ds, s, u) && Said(d) in ds && d.id in Removals(rules, r, ds)
    ensures Step(Fences(rules, r, ds), s, d) == s
    ensures var after := Step(Under(rules, u.tombstones), u.members, d);
      Gone(rules, r, ds, u.(members := after), d.id)
      && (|Stayers(rules, r, ds)| < rules.maxMembers && d.id in after ==> d.id in Crowd(rules, r, ds))
  {
    Fenceless(rules, r, ds, s, d);
    var now := Under(rules, u.tombstones);
    assert Gone(rules, r, ds, u, d.id) && now.maxMembers == rules.maxMembers;
    assert |Stayers(rules, r, ds)| < rules.maxMembers ==> u.members.Keys <= Crowd(rules, r, ds);
    assert Heard(now, d) ==> Told(rules, ds, d.id) && d.id !in Fenced(u.tombstones);
    StayersFit(rules, r, ds, s, u);
    StepKeys(now, u.members, d);
    hide *;
    if d.id !in u.members && Heard(now, d) {
      assert Buried(rules, r, ds, u.tombstones) by { ReadyIs(rules, r, ds, s, u); }
      PassesThrough(rules, r, ds, u.tombstones, d.id);
      StepHeard(now, u.members, d);
      PassingIsCrowd(rules, r, ds, d.id);
      GoneAgain(rules, r, ds, u, Step(now, u.members, d), d.id);
    } else {
      GoneStill(rules, r, ds, u, Step(now, u.members, d), d.id);
    }
  }

  lemma ReadyIs(rules: Rules, r: Replica, ds: seq<Delta>, s: Members, u: Replica)
    requires Ready(rules, r, ds, s, u)
    ensures Buried(rules, r, ds, u.tombstones)
  {
  }

  lemma Fenceless(rules: Rules, r: Replica, ds: seq<Delta>, s: Members, d: Member)
    requires d.id in Removals(rules, r, ds)
    ensures Step(Fences(rules, r, ds), s, d) == s
  {
    hide Removals;
  }

  lemma StayersFit(rules: Rules, r: Replica, ds: seq<Delta>, s: Members, u: Replica)
    requires Ready(rules, r, ds, s, u)
    ensures |Stayers(rules, r, ds)| <= |s| <= |u.members|
  {
    var b := Stayers(rules, r, ds);
    hide Removals, Stayers, Unhindered, Buried, Crowd, Gone;
    Fits(s, u.members, Removals(rules, r, ds));
    Subset(b.Keys, s.Keys);
    assert |b| == |b.Keys| && |s| == |s.Keys|;
  }

  lemma GoneStill(rules: Rules, r: Replica, ds: seq<Delta>, u: Replica, after: Members, id: NodeId)
    requires Gone(rules, r, ds, u, id) && (id in after ==> id in u.members)
    ensures Gone(rules, r, ds, u.(members := after), id)
  {
    hide Told, Fenced, Stayers;
  }

  lemma StepHeard(f: Formation, t: Members, d: Member)
    requires d.id !in t
    ensures d.id in Step(f, t, d) ==> |t| < f.maxMembers
  {
  }

  lemma PassingIsCrowd(rules: Rules, r: Replica, ds: seq<Delta>, id: NodeId)
    requires id in Passing(rules, r, ds)
    ensures id in Crowd(rules, r, ds)
  {
    hide Passing, Joining;
  }

  lemma GoneAgain(rules: Rules, r: Replica, ds: seq<Delta>, u: Replica, after: Members, id: NodeId)
    requires Told(rules, ds, id) && id !in Fenced(u.tombstones)
    requires id in after ==> |Stayers(rules, r, ds)| < rules.maxMembers
    ensures Gone(rules, r, ds, u.(members := after), id)
  {
    hide Told, Fenced, Stayers;
  }

  lemma PassesThrough(rules: Rules, r: Replica, ds: seq<Delta>, ts: Tombstones, id: NodeId)
    requires Buried(rules, r, ds, ts) && id in Removals(rules, r, ds) && Told(rules, ds, id) && id !in Fenced(ts)
    ensures id in Passing(rules, r, ds)
  {
    assert Tomb(ts, id) == Tomb(r.tombstones, id) || (id in ts && Buries(rules, r, ds, id, ts[id]));
    hide Removals, Told, Buries;
  }

  lemma SaidTracks(rules: Rules, r: Replica, ds: seq<Delta>, s: Members, u: Replica, d: Member)
    requires Ready(rules, r, ds, s, u) && Said(d) in ds
    ensures Tracks(rules, r, ds, Step(Fences(rules, r, ds), s, d), Apply(rules, u, Said(d)))
  {
    var f, now := Fences(rules, r, ds), Under(rules, u.tombstones);
    var after := Step(now, u.members, d);
    assert Apply(rules, u, Said(d)) == u.(members := after);
    assert Tracks(rules, r, ds, s, u);
    hide *;
    forall id | id != d.id
      ensures MemberDelivery.At(after, id) == MemberDelivery.At(u.members, id)
      ensures MemberDelivery.At(Step(f, s, d), id) == MemberDelivery.At(s, id)
    {
      StepElsewhere(now, u.members, d, id);
      StepElsewhere(f, s, d, id);
    }
    if d.id in Removals(rules, r, ds) {
      SaidOfRemoved(rules, r, ds, s, u, d);
    } else {
      SaidOfStayer(rules, r, ds, s, u, d);
    }
    OneRecordChanged(rules, r, ds, s, Step(f, s, d), u, after, d.id);
  }

  lemma OneRecordChanged(rules: Rules, r: Replica, ds: seq<Delta>, s: Members, t: Members, u: Replica, after: Members,
                         id: NodeId)
    requires Tracks(rules, r, ds, s, u)
    requires forall i :: i != id ==> MemberDelivery.At(after, i) == MemberDelivery.At(u.members, i)
    requires forall i :: i != id ==> MemberDelivery.At(t, i) == MemberDelivery.At(s, i)
    requires id in Removals(rules, r, ds) ==> Gone(rules, r, ds, u.(members := after), id)
    requires id !in Removals(rules, r, ds) ==> MemberDelivery.At(after, id) == MemberDelivery.At(t, id)
    requires |Stayers(rules, r, ds)| < rules.maxMembers && id in after ==> id in Crowd(rules, r, ds)
    ensures Tracks(rules, r, ds, t, u.(members := after))
  {
    hide Removals, Crowd, Stayers, Told, Fenced;
    forall i | i in Removals(rules, r, ds) ensures Gone(rules, r, ds, u.(members := after), i) {
      assert Gone(rules, r, ds, u, i);
      if i != id { assert MemberDelivery.At(after, i) == MemberDelivery.At(u.members, i); }
    }
    forall i | i in after ensures i in u.members || i == id {
      if i != id { assert MemberDelivery.At(after, i) == MemberDelivery.At(u.members, i); }
    }
  }

  /** An adopted tombstone is one of those that count, and its member is gone. */
  lemma RemovedTracks(rules: Rules, r: Replica, ds: seq<Delta>, s: Members, u: Replica,
                      t: Registers.Entry<NodeId, Removal>)
    requires Ready(rules, r, ds, s, u) && Removed(t) in ds
    requires Registers.Takes(rules.tombstones, u.tombstones, t) ==>
      Registers.Takes(rules.tombstones, r.tombstones, t)
    ensures Tracks(rules, r, ds, s, Apply(rules, u, Removed(t)))
  {
    var after := Apply(rules, u, Removed(t));
    if Registers.Takes(rules.tombstones, u.tombstones, t) {
      assert t.key in Removals(rules, r, ds);
      assert after.members == u.members - {t.key} && after.tombstones == u.tombstones[t.key := t];
      hide Registers.Takes, Removals, Stayers, Crowd, Unhindered, Buried, Apart, Told, Apply;
      forall id | id in Removals(rules, r, ds) ensures Gone(rules, r, ds, after, id) {
        assert Gone(rules, r, ds, u, id);
      }
    }
  }

  lemma ReadyAlong(rules: Rules, r: Replica, ds: seq<Delta>, ps: seq<Delta>)
    requires Within(ps, ds) && Registers.Roomy(rules.tombstones, r.tombstones, TombNews(ds))
    requires Unhindered(rules, r, ds) && Tracks(rules, r, ds, Alone(rules, r, ds, ps), Deliver(rules, r, ps))
    ensures Ready(rules, r, ds, Alone(rules, r, ds, ps), Deliver(rules, r, ps))
  {
    TombstonesSettle(rules, r, ds, ps);
    AloneSteps(Fences(rules, r, ds), Stayers(rules, r, ds), Removals(rules, r, ds), ps);
    hide Deliver, Run, Sayings, Unhindered, Tracks, Removals, Buried;
  }

  lemma TakenCounts(rules: Rules, r: Replica, ds: seq<Delta>, ps: seq<Delta>, t: Registers.Entry<NodeId, Removal>)
    requires Within(ps + [Removed(t)], ds) && Registers.Roomy(rules.tombstones, r.tombstones, TombNews(ds))
    ensures Registers.Takes(rules.tombstones, Deliver(rules, r, ps).tombstones, t) ==>
      Registers.Takes(rules.tombstones, r.tombstones, t)
  {
    TombstonesSettle(rules, r, ds, ps) by { assert forall d :: d in ps ==> d in ps + [Removed(t)]; }
    RoomyWithin(rules, r, ds, ps + [Removed(t)]);
    NewsMore(ps, Removed(t));
    assert TombstoneOf(Removed(t)) == Some(t);
    hide Deliver, TombNews, Registers.Roomy, Registers.Takes, Registers.AllSettled;
    Registers.Arrives(rules.tombstones, r.tombstones, TombNews(ps), t, Deliver(rules, r, ps).tombstones);
  }

  lemma DeltaTracks(rules: Rules, r: Replica, ds: seq<Delta>, ps: seq<Delta>, d: Delta)
    requires Within(ps + [d], ds) && Registers.Roomy(rules.tombstones, r.tombstones, TombNews(ds))
    requires Ready(rules, r, ds, Alone(rules, r, ds, ps), Deliver(rules, r, ps))
    ensures Tracks(rules, r, ds, Alone(rules, r, ds, ps + [d]), Deliver(rules, r, ps + [d]))
  {
    assert d in ps + [d];
    DeliverMore(rules, r, ps, d);
    SayingsMore(ps, d);
    var f, b, s, u := Fences(rules, r, ds), Stayers(rules, r, ds), Alone(rules, r, ds, ps), Deliver(rules, r, ps);
    if d.Said? {
      MemberDelivery.RunSnoc(f, b, Sayings(ps) + [d.member]);
      assert (Sayings(ps) + [d.member])[..|Sayings(ps)|] == Sayings(ps);
      hide Sayings, Deliver, Ready, Tracks, Run, Step;
      SaidTracks(rules, r, ds, s, u, d.member);
    } else if d.Removed? {
      hide Sayings, Deliver, Ready, Tracks, Run;
      TakenCounts(rules, r, ds, ps, d.tombstone);
      RemovedTracks(rules, r, ds, s, u, d.tombstone);
    } else {
      hide Sayings, Deliver, Run, Removals, Crowd, Stayers, Registers.Put;
    }
  }

  lemma DeliveryTracks(rules: Rules, r: Replica, ds: seq<Delta>, ps: seq<Delta>)
    requires Within(ps, ds) && Registers.Roomy(rules.tombstones, r.tombstones, TombNews(ds))
    requires Unhindered(rules, r, ds)
    ensures Tracks(rules, r, ds, Alone(rules, r, ds, ps), Deliver(rules, r, ps))
  {
    if ps == [] {
      NothingTracks(rules, r, ds);
    } else {
      var n := |ps| - 1;
      assert ps[..n] + [ps[n]] == ps && forall d :: d in ps[..n] ==> d in ps;
      hide Unhindered, Tracks, Alone, Deliver, Ready, Registers.Roomy;
      DeliveryTracks(rules, r, ds, ps[..n]);
      ReadyAlong(rules, r, ds, ps[..n]);
      DeltaTracks(rules, r, ds, ps[..n], ps[n]);
    }
  }

  lemma NothingTracks(rules: Rules, r: Replica, ds: seq<Delta>)
    ensures Tracks(rules, r, ds, Alone(rules, r, ds, []), Deliver(rules, r, []))
  {
    hide Removals, Joining, Passing, Told, Fences;
  }

  /** In the end the removed are gone, and the others are what the records alone make of the stayers. */
  lemma DeliveryIsAlone(rules: Rules, r: Replica, ds: seq<Delta>, ps: seq<Delta>)
    requires Within(ps, ds) && Within(ds, ps)
    requires Registers.Roomy(rules.tombstones, r.tombstones, TombNews(ds)) && Unhindered(rules, r, ds)
    ensures Deliver(rules, r, ps).members == Alone(rules, r, ds, ps)
  {
    DeliveryTracks(rules, r, ds, ps);
    AloneSteps(Fences(rules, r, ds), Stayers(rules, r, ds), Removals(rules, r, ds), ps);
    var u, s := Deliver(rules, r, ps), Alone(rules, r, ds, ps);
    hide Deliver, Run, Sayings, Unhindered, Stayers;
    forall id ensures MemberDelivery.At(u.members, id) == MemberDelivery.At(s, id) {
      if id in Removals(rules, r, ds) {
        assert Gone(rules, r, ds, u, id);
        RemovedIsGone(rules, r, ds, ps, u, id);
      }
      hide Removals, Gone;
    }
    hide Alone, Tracks, Removals, Apart;
    SameMembers(u.members, s);
  }

  lemma SameMembers(a: Members, b: Members)
    requires forall id :: MemberDelivery.At(a, id) == MemberDelivery.At(b, id)
    ensures a == b
  {
    forall id ensures id in a <==> id in b { assert MemberDelivery.At(a, id) == MemberDelivery.At(b, id); }
    forall id | id in a ensures a[id] == b[id] { assert MemberDelivery.At(a, id) == MemberDelivery.At(b, id); }
  }

  /** After all tombstones, a removed node holds the last of them. */
  lemma LastTombstone(rules: Rules, r: Replica, ds: seq<Delta>, ps: seq<Delta>, id: NodeId)
    requires Within(ps, ds) && Within(ds, ps) && id in Removals(rules, r, ds)
    requires Registers.Roomy(rules.tombstones, r.tombstones, TombNews(ds))
    ensures var ts := Deliver(rules, r, ps).tombstones;
      id in ts && Tomb(ts, id) != Tomb(r.tombstones, id)
      && Registers.Topmost(rules.tombstones, r.tombstones, TombNews(ds), id, ts[id])
  {
    var k, held, ts := rules.tombstones, r.tombstones, Deliver(rules, r, ps).tombstones;
    TombstonesSettle(rules, r, ds, ps);
    var t := RemovesBuries(rules, r, ds, id);
    Registers.SettledAt(k, held, TombNews(ps), ts, id);
    forall e { SameNews(ps, ds, e); }
    hide Deliver, TombNews, Registers.AllSettled, Registers.Roomy, Registers.Takes, Removals, Buried;
    assert Registers.Counts(k, held, TombNews(ps), id, t);
    assert Registers.Topmost(k, held, TombNews(ps), id, ts[id]);
    TopmostIsNew(k, held, TombNews(ds), id, ts[id]);
  }

  lemma TopmostIsNew(k: Registers.Rule<NodeId, Removal>, held: Tombstones,
                     es: seq<Option<Registers.Entry<NodeId, Removal>>>, id: NodeId, t: Registers.Entry<NodeId, Removal>)
    requires Registers.Counts(k, held, es, id, t)
    ensures Tomb(held, id) != Some(t)
  {
  }

  lemma SameNews(ps: seq<Delta>, ds: seq<Delta>, e: Registers.Entry<NodeId, Removal>)
    requires Within(ps, ds) && Within(ds, ps)
    ensures Some(e) in TombNews(ps) <==> Some(e) in TombNews(ds)
  {
    if Some(e) in TombNews(ps) { NewsWithin(ps, ds, e); }
    if Some(e) in TombNews(ds) { NewsWithin(ds, ps, e); }
  }

  lemma RemovedIsGone(rules: Rules, r: Replica, ds: seq<Delta>, ps: seq<Delta>, u: Replica, id: NodeId)
    requires Within(ps, ds) && Within(ds, ps) && id in Removals(rules, r, ds)
    requires Registers.Roomy(rules.tombstones, r.tombstones, TombNews(ds)) && Unhindered(rules, r, ds)
    requires u == Deliver(rules, r, ps) && Gone(rules, r, ds, u, id)
    ensures id !in u.members
  {
    LastTombstone(rules, r, ds, ps, id);
    hide Deliver, Removals, Registers.Roomy, Joining, Crowd, Registers.Topmost, Stayers, Told, Readmitted;
    if id in u.members { ComesBack(rules, r, ds, u.tombstones, id); }
  }

  lemma ComesBack(rules: Rules, r: Replica, ds: seq<Delta>, ts: Tombstones, id: NodeId)
    requires id in ts && id !in Fenced(ts) && Told(rules, ds, id)
    requires Registers.Topmost(rules.tombstones, r.tombstones, TombNews(ds), id, ts[id])
    ensures Readmitted(rules, r, ds, id)
  {
    hide Told, Registers.Topmost, TombNews;
  }

  /** Compatible gossip arrives in any order, however often. */
  lemma RedeliveryChangesNothing(rules: Rules, r: Replica, ds: seq<Delta>, ps: seq<Delta>)
    requires MemberMerge.Keyed(r.members) && Compatible(rules, r, ds) && Within(ps, ds) && Within(ds, ps)
    ensures Deliver(rules, r, ps) == Deliver(rules, r, ds)
  {
    var f, b := Fences(rules, r, ds), Stayers(rules, r, ds);
    DeliveryIsAlone(rules, r, ds, ps);
    DeliveryIsAlone(rules, r, ds, ds);
    assert Keyed(b);
    forall x ensures x in Sayings(ps) <==> x in Sayings(ds) { }
    RegistersAgree(rules, r, ds, ps);
    hide Sayings, Deliver, Run, Unhindered, RegistersCompatible, MemberDelivery.Compatible, Fences, Stayers;
    MemberDelivery.RedeliveryChangesNothing(f, b, Sayings(ds), Sayings(ps));
  }

  lemma RegistersAgree(rules: Rules, r: Replica, ds: seq<Delta>, ps: seq<Delta>)
    requires RegistersCompatible(rules, r, ds) && Within(ps, ds) && Within(ds, ps)
    ensures Deliver(rules, r, ps).tombstones == Deliver(rules, r, ds).tombstones
    ensures Deliver(rules, r, ps).blocklist == Deliver(rules, r, ds).blocklist
    ensures Deliver(rules, r, ps).policy == Deliver(rules, r, ds).policy
  {
    RegistersSee(rules, r, ps);
    RegistersSee(rules, r, ds);
    AllNewsAlike(ds, ps);
    hide Deliver, TombNews, Listings, Policies, Registers.Run, Registers.Compatible;
    Registers.RedeliveryChangesNothing(rules.tombstones, r.tombstones, TombNews(ds), TombNews(ps));
    Registers.RedeliveryChangesNothing(rules.blocklist, r.blocklist, Listings(ds), Listings(ps));
    Registers.RedeliveryChangesNothing(ONE_POLICY, r.policy, Policies(ds), Policies(ps));
  }

  lemma NewsGoesAlong(ps: seq<Delta>, ds: seq<Delta>)
    requires Within(ps, ds)
    ensures forall e :: e in TombNews(ps) ==> e in TombNews(ds)
    ensures forall e :: e in Listings(ps) ==> e in Listings(ds)
    ensures forall e :: e in Policies(ps) ==> e in Policies(ds)
  {
    forall i | 0 <= i < |ps|
      ensures TombstoneOf(ps[i]) in TombNews(ds) && EntryOf(ps[i]) in Listings(ds) && PolicyOf(ps[i]) in Policies(ds)
    {
      assert ps[i] in ps;
      var j :| 0 <= j < |ds| && ds[j] == ps[i];
      assert TombNews(ds)[j] == TombstoneOf(ps[i]) && Listings(ds)[j] == EntryOf(ps[i])
        && Policies(ds)[j] == PolicyOf(ps[i]);
    }
  }

  lemma AllNewsAlike(ds: seq<Delta>, ps: seq<Delta>)
    requires Within(ps, ds) && Within(ds, ps)
    ensures forall e :: e in TombNews(ps) <==> e in TombNews(ds)
    ensures forall e :: e in Listings(ps) <==> e in Listings(ds)
    ensures forall e :: e in Policies(ps) <==> e in Policies(ds)
  {
    NewsGoesAlong(ps, ds);
    NewsGoesAlong(ds, ps);
    hide TombNews, Listings, Policies;
  }
}
