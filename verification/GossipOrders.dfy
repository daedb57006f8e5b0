/**
 Orders of delivery that agree (crates/orishu-membership/tests/convergence.rs:460-500): if it never matters when which
 delta is heard, the deltas are compatible. Every condition is met by trying one particular order.
 */
module GossipOrders {
  import opened Aggregates
  import opened GossipDelivery
  import opened MemberMerge
  import opened TombstoneDelivery
  import opened Versions
  import MemberDelivery
  import Registers

  // ---- Registers alone ----

  lemma NewsFirst(ds: seq<Delta>, i: nat)
    requires i < |ds|
    ensures TombNews(First(ds, i)) == First(TombNews(ds), i)
    ensures Listings(First(ds, i)) == First(Listings(ds), i)
    ensures Policies(First(ds, i)) == First(Policies(ds), i)
  {
  }

  lemma RegistersMustAgree(rules: Rules, r: Replica, ds: seq<Delta>)
    requires OrdersAgree(rules, r, ds)
    ensures RegistersCompatible(rules, r, ds)
  {
    forall i: nat | i < |ds|
      ensures Registers.Run(rules.tombstones, r.tombstones, First(TombNews(ds), i))
        == Registers.Run(rules.tombstones, r.tombstones, TombNews(ds))
      ensures Registers.Run(rules.blocklist, r.blocklist, First(Listings(ds), i))
        == Registers.Run(rules.blocklist, r.blocklist, Listings(ds))
      ensures Registers.Run(ONE_POLICY, r.policy, First(Policies(ds), i))
        == Registers.Run(ONE_POLICY, r.policy, Policies(ds))
    {
      FirstIsOrder(ds, i);
      assert Deliver(rules, r, First(ds, i)) == Deliver(rules, r, ds);
      hide *;
      NewsFirst(ds, i);
      RegistersSee(rules, r, ds);
      RegistersSee(rules, r, First(ds, i));
    }
    assert |TombNews(ds)| == |ds| && |Listings(ds)| == |ds| && |Policies(ds)| == |ds|;
    hide OrdersAgree, Registers.Compatible, Registers.Run, TombNews, Listings, Policies, First;
    Registers.AgreedIsCompatible(rules.tombstones, r.tombstones, TombNews(ds));
    Registers.AgreedIsCompatible(rules.blocklist, r.blocklist, Listings(ds));
    Registers.AgreedIsCompatible(ONE_POLICY, r.policy, Policies(ds));
  }

  // ---- Tombstones alone ----

  /** A changed tombstone is newer, and took its member away. */
  ghost predicate Swept(r: Replica, u: Replica, id: NodeId) {
    && (Tomb(u.tombstones, id) == Tomb(r.tombstones, id) ==>
          MemberDelivery.At(u.members, id) == MemberDelivery.At(r.members, id))
    && (Tomb(u.tombstones, id) != Tomb(r.tombstones, id) ==>
          && id !in u.members && id in u.tombstones
          && (id in r.tombstones ==> Newer(u.tombstones[id].version, r.tombstones[id].version)))
  }

  lemma SweptOn(rules: Rules, r: Replica, u: Replica, t: Registers.Entry<NodeId, Removal>, id: NodeId)
    requires Swept(r, u, id)
    ensures Swept(r, Apply(rules, u, Removed(t)), id)
  {
  }

  lemma Sweeps(rules: Rules, r: Replica, ts: seq<Delta>, id: NodeId)
    requires forall d :: d in ts ==> d.Removed?
    ensures Swept(r, Deliver(rules, r, ts), id)
  {
    if ts == [] {
    } else {
      var n := |ts| - 1;
      assert ts[n] in ts && forall d :: d in ts[..n] ==> d in ts;
      hide Swept, Apply;
      Sweeps(rules, r, ts[..n], id);
      SweptOn(rules, r, Deliver(rules, r, ts[..n]), ts[n].tombstone, id);
    }
  }

  lemma TombstonesRest(rules: Rules, r: Replica, ds: seq<Delta>)
    requires forall d :: d in ds ==> !d.Removed?
    ensures Deliver(rules, r, ds).tombstones == r.tombstones
  {
    if ds == [] {
    } else {
      var n := |ds| - 1;
      assert ds[n] in ds && forall d :: d in ds[..n] ==> d in ds;
      TombstonesRest(rules, r, ds[..n]);
    }
  }

  lemma NotRemoved(rules: Rules, r: Replica, ds: seq<Delta>, ts: Tombstones, id: NodeId)
    requires Buried(rules, r, ds, ts) && id !in Removals(rules, r, ds)
    ensures Tomb(ts, id) == Tomb(r.tombstones, id)
  {
    if Tomb(ts, id) != Tomb(r.tombstones, id) { BuriesRemoves(rules, r, ds, id, ts[id]); }
    hide Removals;
  }

  /** Hearing all tombstones first leaves the stayers. */
  lemma StayersAreLeft(rules: Rules, r: Replica, ds: seq<Delta>, ts: seq<Delta>, rest: seq<Delta>)
    requires (forall d :: d in ts ==> d.Removed?) && forall d :: d in rest ==> !d.Removed?
    requires Within(ts + rest, ds) && Within(ds, ts + rest)
    requires Registers.Roomy(rules.tombstones, r.tombstones, TombNews(ds))
    ensures Deliver(rules, r, ts).members == Stayers(rules, r, ds)
    ensures Deliver(rules, r, ts).tombstones == Deliver(rules, r, ts + rest).tombstones
  {
    var u, b := Deliver(rules, r, ts), Stayers(rules, r, ds);
    DeliverBoth(rules, r, ts, rest);
    TombstonesRest(rules, u, rest);
    TombstonesSettle(rules, r, ds, ts + rest);
    hide Deliver, Registers.Roomy, Registers.AllSettled, Removals, Buried, Within;
    forall id ensures MemberDelivery.At(u.members, id) == MemberDelivery.At(b, id) {
      Sweeps(rules, r, ts, id);
      if id in Removals(rules, r, ds) {
        LastTombstone(rules, r, ds, ts + rest, id);
      } else {
        NotRemoved(rules, r, ds, u.tombstones, id);
      }
      hide Registers.Topmost;
    }
    hide Stayers;
    SameMembers(u.members, b);
  }

  // ---- Tombstones first ----

  function TombstonesFirst(d: Delta): nat { if d.Removed? then 0 else if d.Said? then 1 else 2 }

  ghost function FencesAfter(rules: Rules, r: Replica, ds: seq<Delta>): Formation {
    Under(rules, Deliver(rules, r, ds).tombstones)
  }

  lemma InMultiset(ps: seq<Delta>, ds: seq<Delta>)
    requires multiset(ps) == multiset(ds)
    ensures Within(ps, ds) && Within(ds, ps)
  {
    forall d ensures d in ps <==> d in ds { assert d in multiset(ps) <==> d in multiset(ds); }
  }

  lemma NoPart(ds: seq<Delta>, kind: Delta -> nat, k: nat)
    requires forall d :: d in ds ==> kind(d) != k
    ensures Part(ds, kind, k) == []
  {
    if ds == [] {
    } else {
      var n := |ds| - 1;
      assert ds[n] in ds && forall d :: d in ds[..n] ==> d in ds;
      NoPart(ds[..n], kind, k);
    }
  }

  lemma ThreeParts(ds: seq<Delta>, kind: Delta -> nat)
    requires forall d :: d in ds ==> kind(d) < 3
    ensures multiset(Part(ds, kind, 0) + (Part(ds, kind, 1) + Part(ds, kind, 2))) == multiset(ds)
  {
    PartsAreAll(ds, kind);
    NoPart(ds, kind, 3);
    hide Part;
  }

  lemma TombstonesFirstIsOrder(ds: seq<Delta>, xs: seq<Member>) returns (ts: seq<Delta>, os: seq<Delta>)
    requires multiset(xs) == multiset(Sayings(ds))
    ensures multiset(ts + (AllSaid(xs) + os)) == multiset(ds)
    ensures forall d :: d in ts ==> d.Removed?
    ensures forall d :: d in os ==> d.Listed? || d.Governed?
  {
    ts, os := Part(ds, TombstonesFirst, 0), Part(ds, TombstonesFirst, 2);
    ThreeParts(ds, TombstonesFirst);
    PartIsSaid(ds, TombstonesFirst, 1);
    SaidAlike(xs, Sayings(ds));
    hide Part, AllSaid, Sayings;
    SwapMiddle(ts, AllSaid(xs), Part(ds, TombstonesFirst, 1), os);
  }

  lemma SwapMiddle<T>(a: seq<T>, b: seq<T>, c: seq<T>, d: seq<T>)
    requires multiset(b) == multiset(c)
    ensures multiset(a + (b + d)) == multiset(a + (c + d))
  {
  }

  /** Once all tombstones are heard, the records must agree among themselves. */
  lemma RecordsRun(rules: Rules, r: Replica, ds: seq<Delta>, xs: seq<Member>)
    requires OrdersAgree(rules, r, ds) && multiset(xs) == multiset(Sayings(ds))
    requires Registers.Roomy(rules.tombstones, r.tombstones, TombNews(ds))
    ensures Run(FencesAfter(rules, r, ds), Stayers(rules, r, ds), xs) == Deliver(rules, r, ds).members
  {
    var ts, os := TombstonesFirstIsOrder(ds, xs);
    var rest := AllSaid(xs) + os;
    InMultiset(ts + rest, ds);
    assert Deliver(rules, r, ts + rest) == Deliver(rules, r, ds);
    assert forall d :: d in rest ==> !d.Removed?;
    hide OrdersAgree, Deliver, Stayers, Sayings, AllSaid, Within, Run, Registers.Roomy;
    StayersAreLeft(rules, r, ds, ts, rest);
    DeliverBoth(rules, r, ts, rest);
    var u := Deliver(rules, r, ts);
    DeliverBoth(rules, u, AllSaid(xs), os);
    SaidRun(rules, u, xs);
    OthersRun(rules, Deliver(rules, u, AllSaid(xs)), os);
  }

  lemma RecordsMustAgree(rules: Rules, r: Replica, ds: seq<Delta>)
    requires OrdersAgree(rules, r, ds) && MemberMerge.Keyed(r.members)
    requires Registers.Roomy(rules.tombstones, r.tombstones, TombNews(ds))
    ensures var f, b := FencesAfter(rules, r, ds), Stayers(rules, r, ds);
      && MemberDelivery.OrdersAgree(f, b, Sayings(ds)) && MemberDelivery.Compatible(f, b, Sayings(ds))
      && Run(f, b, Sayings(ds)) == Deliver(rules, r, ds).members
  {
    var f, b := FencesAfter(rules, r, ds), Stayers(rules, r, ds);
    assert Keyed(b);
    hide OrdersAgree, Deliver, Stayers, FencesAfter, Run, Registers.Roomy, Sayings, MemberDelivery.Compatible;
    forall xs | multiset(xs) == multiset(Sayings(ds)) ensures Run(f, b, xs) == Deliver(rules, r, ds).members {
      RecordsRun(rules, r, ds, xs);
    }
    RecordsRun(rules, r, ds, Sayings(ds));
    MemberDelivery.OrdersAgreeIff(f, b, Sayings(ds));
  }

  /** Fencing more nodes disputes nothing. */
  lemma FencedMore(f: Formation, g: Formation, b: Members, xs: seq<Member>)
    requires g == f.(tombstoned := g.tombstoned) && f.tombstoned <= g.tombstoned
    requires MemberDelivery.Compatible(f, b, xs)
    ensures MemberDelivery.Compatible(g, b, xs)
  {
    forall d ensures MemberDelivery.Counts(g, b, d) <==>
      MemberDelivery.Counts(f, b, d) && d.id !in g.tombstoned { }
    assert MemberDelivery.Newcomers(g, b, xs) <= MemberDelivery.Newcomers(f, b, xs);
    Subset(b.Keys + MemberDelivery.Newcomers(g, b, xs), b.Keys + MemberDelivery.Newcomers(f, b, xs));
    hide MemberDelivery.Newcomers, MemberDelivery.Counts, Newer;
    assert MemberDelivery.Roomy(g, b, xs);
    NewsFencedMore(f, g, b, xs);
  }

  lemma NewsFencedMore(f: Formation, g: Formation, b: Members, xs: seq<Member>)
    requires forall d :: MemberDelivery.Counts(g, b, d) <==> MemberDelivery.Counts(f, b, d) && d.id !in g.tombstoned
    ensures MemberDelivery.OneCertificate(f, b, xs) ==> MemberDelivery.OneCertificate(g, b, xs)
    ensures MemberDelivery.OneDescription(f, b, xs) ==> MemberDelivery.OneDescription(g, b, xs)
    ensures MemberDelivery.OneDeath(f, b, xs) ==> MemberDelivery.OneDeath(g, b, xs)
  {
    hide MemberDelivery.Counts, Newer;
    forall id, x ensures MemberDelivery.News(g, b, xs, id, x) <==>
      MemberDelivery.News(f, b, xs, id, x) && id !in g.tombstoned { }
    hide MemberDelivery.News;
    forall id, x | MemberDelivery.Topmost(g, b, xs, id, x) ensures MemberDelivery.Topmost(f, b, xs, id, x) { }
    forall id, x ensures MemberDelivery.Fatal(g, b, xs, id, x) ==> MemberDelivery.Fatal(f, b, xs, id, x) { }
    hide MemberDelivery.Topmost, MemberDelivery.Fatal;
  }

  lemma MoreAreFenced(rules: Rules, r: Replica, ds: seq<Delta>)
    requires Registers.Roomy(rules.tombstones, r.tombstones, TombNews(ds))
    ensures FencesAfter(rules, r, ds).tombstoned <= Fences(rules, r, ds).tombstoned
    ensures Fences(rules, r, ds) == FencesAfter(rules, r, ds).(tombstoned := Fences(rules, r, ds).tombstoned)
  {
    TombstonesSettle(rules, r, ds, ds);
    var ts := Deliver(rules, r, ds).tombstones;
    hide Deliver, Registers.Roomy, Registers.AllSettled;
    forall id | id in Fenced(ts) ensures id in Fences(rules, r, ds).tombstoned {
      if id !in Removals(rules, r, ds) { FencesStand(rules, r, ds, ts, id); }
      hide Removals, Buried;
    }
  }

  // ---- Records first, then tombstones ----

  function RecordsFirst(d: Delta): nat { if d.Said? then 0 else if d.Removed? then 1 else 2 }

  /** Hearing all records first, then all tombstones, leaves no removed node. */
  lemma RemovedAreGone(rules: Rules, r: Replica, ds: seq<Delta>, id: NodeId)
    requires OrdersAgree(rules, r, ds) && id in Removals(rules, r, ds)
    requires Registers.Roomy(rules.tombstones, r.tombstones, TombNews(ds))
    ensures id !in Deliver(rules, r, ds).members
  {
    var said, ts, os := Part(ds, RecordsFirst, 0), Part(ds, RecordsFirst, 1), Part(ds, RecordsFirst, 2);
    ThreeParts(ds, RecordsFirst);
    assert Deliver(rules, r, said + (ts + os)) == Deliver(rules, r, ds);
    hide OrdersAgree, Deliver, Part, Registers.Roomy, Removals;
    LastTombstone(rules, r, ds, ds, id);
    hide Registers.Topmost;
    SweptInTheEnd(rules, r, said, ts, os, id);
  }

  lemma SweptInTheEnd(rules: Rules, r: Replica, said: seq<Delta>, ts: seq<Delta>, os: seq<Delta>, id: NodeId)
    requires (forall d :: d in said ==> d.Said?) && (forall d :: d in ts ==> d.Removed?)
    requires forall d :: d in os ==> d.Listed? || d.Governed?
    requires Tomb(Deliver(rules, r, said + (ts + os)).tombstones, id) != Tomb(r.tombstones, id)
    ensures id !in Deliver(rules, r, said + (ts + os)).members
  {
    hide Deliver;
    DeliverBoth(rules, r, said, ts + os);
    var u := Deliver(rules, r, said);
    TombstonesRest(rules, r, said);
    DeliverBoth(rules, u, ts, os);
    OthersRun(rules, Deliver(rules, u, ts), os);
    Sweeps(rules, u, ts, id);
  }

  /** A record of a node not fenced in the end, with room for it, makes it a member. */
  lemma HeardIsPresent(rules: Rules, r: Replica, ds: seq<Delta>, d: Member)
    requires OrdersAgree(rules, r, ds) && MemberMerge.Keyed(r.members) && Said(d) in ds
    requires Registers.Roomy(rules.tombstones, r.tombstones, TombNews(ds))
    requires MemberDelivery.Counts(FencesAfter(rules, r, ds), Stayers(rules, r, ds), d)
    ensures d.id in Deliver(rules, r, ds).members
  {
    RecordsMustAgree(rules, r, ds);
    var f, b := FencesAfter(rules, r, ds), Stayers(rules, r, ds);
    assert MemberDelivery.News(f, b, Sayings(ds), d.id, d);
    hide *;
    MemberDelivery.FirstLasts(f, b, Sayings(ds), d.id, d);
  }

  lemma LastIsCleared(rules: Rules, r: Replica, ds: seq<Delta>, id: NodeId)
    requires Registers.Compatible(rules.tombstones, r.tombstones, TombNews(ds)) && Readmitted(rules, r, ds, id)
    ensures id in Removals(rules, r, ds) && id !in FencesAfter(rules, r, ds).tombstoned
  {
    var t :| Registers.Topmost(rules.tombstones, r.tombstones, TombNews(ds), id, t) && t.content.cleared;
    assert Buries(rules, r, ds, id, t);
    BuriesRemoves(rules, r, ds, id, t);
    LastTombstone(rules, r, ds, ds, id);
    var last := Deliver(rules, r, ds).tombstones[id];
    assert !Newer(t.version, last.version) && !Newer(last.version, t.version);
    hide Deliver, Removals, TombNews, Registers.Topmost, Registers.Roomy;
    assert t == last;
  }

  lemma NobodyReadmitted(rules: Rules, r: Replica, ds: seq<Delta>, id: NodeId)
    requires OrdersAgree(rules, r, ds) && MemberMerge.Keyed(r.members)
    requires Registers.Compatible(rules.tombstones, r.tombstones, TombNews(ds))
    requires |Stayers(rules, r, ds)| < rules.maxMembers
    ensures !Readmitted(rules, r, ds, id)
  {
    if Readmitted(rules, r, ds, id) {
      LastIsCleared(rules, r, ds, id);
      RemovedAreGone(rules, r, ds, id);
      var d :| Said(d) in ds && d.id == id && rules.valid(d);
      assert id !in Stayers(rules, r, ds);
      assert MemberDelivery.Counts(FencesAfter(rules, r, ds), Stayers(rules, r, ds), d);
      hide *;
      HeardIsPresent(rules, r, ds, d);
      assert false;
    }
  }

  // ---- Those who pass through first ----

  /** Who is heard and still absent found no room. */
  lemma Blocked(f: Formation, s: Members, xs: seq<Member>, d: Member)
    requires d in xs && Heard(f, d) && d.id !in Run(f, s, xs)
    ensures |Run(f, s, xs)| >= f.maxMembers
  {
    var n := |xs| - 1;
    MemberDelivery.RunSnoc(f, s, xs);
    var t := Run(f, s, xs[..n]);
    MemberDelivery.KeysStep(f, t, t, xs[n]);
    hide Run, Absorbed;
    if d != xs[n] {
      assert d in xs[..n];
      Blocked(f, s, xs[..n], d);
      assert Step(f, t, xs[n]) == t || xs[n].id in t;
      Subset(t.Keys, Step(f, t, xs[n]).Keys);
      assert |t| == |t.Keys| && |Step(f, t, xs[n])| == |Step(f, t, xs[n]).Keys|;
    }
  }

  lemma KeysFrom(f: Formation, s: Members, xs: seq<Member>, id: NodeId)
    requires id in Run(f, s, xs) && id !in s
    ensures |s| < f.maxMembers && exists d :: d in xs && d.id == id
  {
    MemberDelivery.KeysGrow(f, s, xs);
    hide Run;
    assert id in MemberDelivery.Newcomers(f, s, xs);
  }

  /** If the passing fill the formation first, no newcomer gets in. */
  lemma CrowdedOut(f: Formation, s: Members, xs: seq<Member>, ys: seq<Member>, passing: set<NodeId>,
                   joining: set<NodeId>)
    requires joining != {} && joining !! s.Keys && joining <= Run(f, Run(f, s, xs), ys).Keys
    requires forall id :: id in passing ==> exists d :: d in xs && d.id == id && Heard(f, d)
    requires forall d :: d in xs ==> d.id !in joining
    ensures |s.Keys + joining + passing| <= f.maxMembers
  {
    var t := Run(f, s, xs);
    var u := Run(f, t, ys);
    var j :| j in joining;
    if j in t { KeysFrom(f, s, xs, j); }
    KeysFrom(f, t, ys, j);
    forall id | id in passing ensures id in t {
      var d :| d in xs && d.id == id && Heard(f, d);
      if id !in t { Blocked(f, s, xs, d); }
    }
    MemberDelivery.KeysGrow(f, s, xs);
    MemberDelivery.KeysGrow(f, t, ys);
    MemberDelivery.Capped(f, t, ys);
    hide Run, Heard, MemberDelivery.Newcomers;
    Subset(s.Keys + joining + passing, u.Keys);
    assert |u| == |u.Keys|;
  }

  /** Cleared tombstones of the passing, their records, all other records, the rest. */
  function PassingFirst(passing: set<NodeId>, d: Delta): nat {
    match d
    case Removed(t) => if t.content.cleared && t.key in passing then 0 else 3
    case Said(x) => if x.id in passing then 1 else 2
    case _ => 3
  }

  lemma OnlySaid(ds: seq<Delta>)
    requires forall d :: d in ds ==> d.Said?
    ensures ds == AllSaid(Sayings(ds))
  {
    if ds == [] {
    } else {
      var n := |ds| - 1;
      assert ds[n] in ds && forall d :: d in ds[..n] ==> d in ds;
      assert ds == ds[..n] + [ds[n]];
      OnlySaid(ds[..n]);
      SayingsMore(ds[..n], ds[n]);
    }
  }

  lemma NobodyJoins(rules: Rules, r: Replica, ds: seq<Delta>)
    requires forall d :: d in ds ==> !d.Said?
    ensures Deliver(rules, r, ds).members.Keys <= r.members.Keys
  {
    if ds == [] {
    } else {
      var n := |ds| - 1;
      assert ds[n] in ds && forall d :: d in ds[..n] ==> d in ds;
      NobodyJoins(rules, r, ds[..n]);
    }
  }

  /** Removed nodes that are not members yet but may be for a while. */
  ghost function Visitors(rules: Rules, r: Replica, ds: seq<Delta>): set<NodeId> {
    Passing(rules, r, ds) - r.members.Keys
  }

  lemma OpenersOpen(rules: Rules, r: Replica, ds: seq<Delta>, openers: seq<Delta>, id: NodeId)
    requires forall d :: d in openers <==> d in ds && PassingFirst(Visitors(rules, r, ds), d) == 0
    requires Registers.Roomy(rules.tombstones, r.tombstones, TombNews(ds))
    ensures var u := Deliver(rules, r, openers);
      && MemberDelivery.At(u.members, id) == MemberDelivery.At(r.members, id)
      && (id in Visitors(rules, r, ds) ==> id !in Fenced(u.tombstones))
      && (id !in Visitors(rules, r, ds) ==> Tomb(u.tombstones, id) == Tomb(r.tombstones, id))
  {
    var u := Deliver(rules, r, openers);
    RoomyWithin(rules, r, ds, openers);
    TombstonesSettle(rules, r, openers, openers);
    Sweeps(rules, r, openers, id);
    hide Deliver, Removals, TombNews, Registers.AllSettled, Registers.Roomy, Visitors, Fenced, Newer;
    if Tomb(u.tombstones, id) != Tomb(r.tombstones, id) {
      OnlyOpened(rules, r, ds, openers, u.tombstones, id);
      assert MemberDelivery.At(u.members, id) == MemberDelivery.At(r.members, id);
    } else if id in Visitors(rules, r, ds) {
      VisitorIsOpen(rules, r, ds, openers, id);
    }
  }

  /** A tombstone the openers changed is a visitor's, and cleared. */
  lemma OnlyOpened(rules: Rules, r: Replica, ds: seq<Delta>, openers: seq<Delta>, ts: Tombstones, id: NodeId)
    requires forall d :: d in openers <==> d in ds && PassingFirst(Visitors(rules, r, ds), d) == 0
    requires Buried(rules, r, openers, ts) && Tomb(ts, id) != Tomb(r.tombstones, id)
    ensures id in Visitors(rules, r, ds) && id !in Fenced(ts) && id !in r.members
  {
    assert Buries(rules, r, openers, id, ts[id]);
    BuriesRemoves(rules, r, openers, id, ts[id]);
    hide Buried, Removals, TombNews, Registers.Takes, Passing;
  }

  lemma VisitorIsOpen(rules: Rules, r: Replica, ds: seq<Delta>, openers: seq<Delta>, id: NodeId)
    requires forall d :: d in openers <==> d in ds && PassingFirst(Visitors(rules, r, ds), d) == 0
    requires var ts := Deliver(rules, r, openers).tombstones;
      Registers.AllSettled(rules.tombstones, r.tombstones, TombNews(openers), ts)
    requires id in Visitors(rules, r, ds)
    ensures Tomb(Deliver(rules, r, openers).tombstones, id) == Tomb(r.tombstones, id) ==>
      id !in Fenced(Deliver(rules, r, openers).tombstones)
  {
    VisitorsMayPass(rules, r, ds, id);
    hide Deliver, Visitors, TombNews, Registers.AllSettled, Removals, Told, Buries;
    if t :| Buries(rules, r, ds, id, t) && t.content.cleared { ClearedOpens(rules, r, ds, openers, id, t); }
  }

  lemma VisitorsMayPass(rules: Rules, r: Replica, ds: seq<Delta>, id: NodeId)
    requires id in Visitors(rules, r, ds)
    ensures MayPass(rules, r, ds, id) && Told(rules, ds, id) && id in Removals(rules, r, ds) && id !in r.members
  {
    hide Removals, Told, MayPass;
  }

  lemma ClearedOpens(rules: Rules, r: Replica, ds: seq<Delta>, openers: seq<Delta>, id: NodeId,
                     t: Registers.Entry<NodeId, Removal>)
    requires forall d :: d in openers <==> d in ds && PassingFirst(Visitors(rules, r, ds), d) == 0
    requires id in Visitors(rules, r, ds) && Buries(rules, r, ds, id, t) && t.content.cleared
    requires var ts := Deliver(rules, r, openers).tombstones;
      Registers.AllSettled(rules.tombstones, r.tombstones, TombNews(openers), ts)
    ensures Tomb(Deliver(rules, r, openers).tombstones, id) != Tomb(r.tombstones, id)
  {
    var k, held, ts := rules.tombstones, r.tombstones, Deliver(rules, r, openers).tombstones;
    hide Deliver, Visitors, Registers.Takes, Registers.AllSettled, Removals, TombNews;
    BuriesRemoves(rules, r, ds, id, t);
    assert Removed(t) in openers;
    TombIsNews(openers, t);
    Registers.SettledAt(k, held, TombNews(openers), ts, id);
    assert Registers.Counts(k, held, TombNews(openers), id, t);
    TopmostIsNew(k, held, TombNews(openers), id, ts[id]);
  }

  lemma PassingOrder(ds: seq<Delta>, w: set<NodeId>)
    returns (openers: seq<Delta>, xs: seq<Member>, ys: seq<Member>, rest: seq<Delta>)
    ensures multiset(openers + (AllSaid(xs) + (AllSaid(ys) + rest))) == multiset(ds)
    ensures forall d :: d in openers <==> d in ds && PassingFirst(w, d) == 0
    ensures forall x :: x in xs <==> Said(x) in ds && x.id in w
    ensures forall d :: d in rest ==> !d.Said?
  {
    var kind: Delta -> nat := d => PassingFirst(w, d);
    openers, rest := Part(ds, kind, 0), Part(ds, kind, 3);
    xs, ys := Sayings(Part(ds, kind, 1)), Sayings(Part(ds, kind, 2));
    PartsAreAll(ds, kind);
    hide Part, Sayings, AllSaid;
    OnlySaid(Part(ds, kind, 1));
    OnlySaid(Part(ds, kind, 2));
  }

  lemma RecordsThenRest(rules: Rules, r: Replica, openers: seq<Delta>, xs: seq<Member>, ys: seq<Member>,
                        rest: seq<Delta>)
    requires Deliver(rules, r, openers).members == r.members && forall d :: d in rest ==> !d.Said?
    ensures var f := Under(rules, Deliver(rules, r, openers).tombstones);
      Deliver(rules, r, openers + (AllSaid(xs) + (AllSaid(ys) + rest))).members.Keys
        <= Run(f, Run(f, r.members, xs), ys).Keys
  {
    var u := Deliver(rules, r, openers);
    hide Deliver, AllSaid, Run;
    DeliverBoth(rules, r, openers, AllSaid(xs) + (AllSaid(ys) + rest));
    DeliverBoth(rules, u, AllSaid(xs), AllSaid(ys) + rest);
    SaidRun(rules, u, xs);
    var v := Deliver(rules, u, AllSaid(xs));
    DeliverBoth(rules, v, AllSaid(ys), rest);
    SaidRun(rules, v, ys);
    NobodyJoins(rules, Deliver(rules, v, AllSaid(ys)), rest);
  }

  lemma JoiningIsPresent(rules: Rules, r: Replica, ds: seq<Delta>, id: NodeId)
    requires OrdersAgree(rules, r, ds) && MemberMerge.Keyed(r.members) && id in Joining(rules, r, ds)
    requires Registers.Roomy(rules.tombstones, r.tombstones, TombNews(ds))
    ensures id in Deliver(rules, r, ds).members
  {
    var f, g, b := FencesAfter(rules, r, ds), Fences(rules, r, ds), Stayers(rules, r, ds);
    var d :| d in Sayings(ds) && MemberDelivery.Counts(g, b, d) && d.id !in b && d.id == id;
    MoreAreFenced(rules, r, ds);
    hide OrdersAgree, Deliver, FencesAfter, Fences, Stayers, Registers.Roomy, Sayings;
    assert MemberDelivery.Counts(f, b, d);
    HeardIsPresent(rules, r, ds, d);
  }

  lemma VisitorsAreHeard(rules: Rules, r: Replica, ds: seq<Delta>, ts: Tombstones, xs: seq<Member>, id: NodeId)
    requires forall x :: x in xs <==> Said(x) in ds && x.id in Visitors(rules, r, ds)
    requires id in Visitors(rules, r, ds) && id !in Fenced(ts)
    ensures exists d :: d in xs && d.id == id && Heard(Under(rules, ts), d)
  {
    VisitorsMayPass(rules, r, ds, id);
    hide Visitors, Fenced;
    var d :| Said(d) in ds && d.id == id && rules.valid(d);
    assert d in xs && Heard(Under(rules, ts), d);
  }

  lemma JoiningIsApart(rules: Rules, r: Replica, ds: seq<Delta>, id: NodeId)
    requires id in Joining(rules, r, ds)
    ensures id !in r.members && id !in Visitors(rules, r, ds)
  {
    var d :| d in Sayings(ds) && MemberDelivery.Counts(Fences(rules, r, ds), Stayers(rules, r, ds), d)
             && d.id !in Stayers(rules, r, ds) && d.id == id;
    assert id !in Removals(rules, r, ds);
    hide Removals, Told, MayPass, Fenced, Sayings;
  }

  lemma CrowdIs(rules: Rules, r: Replica, ds: seq<Delta>)
    ensures Crowd(rules, r, ds) == r.members.Keys + Joining(rules, r, ds) + Visitors(rules, r, ds)
  {
    hide Passing, Joining;
  }

  /** The newcomers and the visitors all find room, whoever comes first. */
  lemma AllFit(rules: Rules, r: Replica, ds: seq<Delta>)
    requires OrdersAgree(rules, r, ds) && MemberMerge.Keyed(r.members)
    requires Registers.Roomy(rules.tombstones, r.tombstones, TombNews(ds)) && Joining(rules, r, ds) != {}
    ensures |Crowd(rules, r, ds)| <= rules.maxMembers
  {
    var w, joining := Visitors(rules, r, ds), Joining(rules, r, ds);
    var openers, xs, ys, rest := PassingOrder(ds, w);
    var order := openers + (AllSaid(xs) + (AllSaid(ys) + rest));
    assert Deliver(rules, r, order) == Deliver(rules, r, ds);
    var u := Deliver(rules, r, openers);
    var f := Under(rules, u.tombstones);
    assert f.maxMembers == rules.maxMembers;
    hide *;
    forall id ensures MemberDelivery.At(u.members, id) == MemberDelivery.At(r.members, id) {
      OpenersOpen(rules, r, ds, openers, id);
    }
    SameMembers(u.members, r.members);
    RecordsThenRest(rules, r, openers, xs, ys, rest);
    forall id | id in joining ensures id in Deliver(rules, r, order).members && id !in r.members && id !in w {
      JoiningIsPresent(rules, r, ds, id);
      JoiningIsApart(rules, r, ds, id);
    }
    forall id | id in w ensures exists d :: d in xs && d.id == id && Heard(f, d) {
      OpenersOpen(rules, r, ds, openers, id);
      VisitorsAreHeard(rules, r, ds, u.tombstones, xs, id);
    }
    CrowdedOut(f, r.members, xs, ys, w, joining);
    CrowdIs(rules, r, ds);
  }

  lemma MustBeUnhindered(rules: Rules, r: Replica, ds: seq<Delta>)
    requires OrdersAgree(rules, r, ds) && MemberMerge.Keyed(r.members)
    requires Registers.Compatible(rules.tombstones, r.tombstones, TombNews(ds))
    ensures Unhindered(rules, r, ds)
  {
    hide OrdersAgree, Readmitted, Joining, Crowd, Stayers, TombNews, Registers.Roomy;
    if |Stayers(rules, r, ds)| < rules.maxMembers {
      forall id ensures !Readmitted(rules, r, ds, id) { NobodyReadmitted(rules, r, ds, id); }
      if Joining(rules, r, ds) != {} { AllFit(rules, r, ds); }
    }
  }

  lemma MustBeCompatible(rules: Rules, r: Replica, ds: seq<Delta>)
    requires OrdersAgree(rules, r, ds) && MemberMerge.Keyed(r.members)
    ensures Compatible(rules, r, ds)
  {
    RegistersMustAgree(rules, r, ds);
    hide OrdersAgree, Unhindered, TombNews, Registers.OneTop, Registers.Roomy, Fences, FencesAfter, Stayers, Sayings;
    MustBeUnhindered(rules, r, ds);
    RecordsMustAgree(rules, r, ds);
    MoreAreFenced(rules, r, ds);
    hide MemberDelivery.Compatible;
    FencedMore(FencesAfter(rules, r, ds), Fences(rules, r, ds), Stayers(rules, r, ds), Sayings(ds));
  }

  /** Delivery order never matters exactly for compatible gossip, of all kinds together. */
  lemma OrdersAgreeIff(rules: Rules, r: Replica, ds: seq<Delta>)
    requires MemberMerge.Keyed(r.members)
    ensures OrdersAgree(rules, r, ds) <==> Compatible(rules, r, ds)
  {
    if OrdersAgree(rules, r, ds) {
      MustBeCompatible(rules, r, ds);
    } else if Compatible(rules, r, ds) {
      hide Compatible, Deliver;
      forall ps | multiset(ps) == multiset(ds) ensures Deliver(rules, r, ps) == Deliver(rules, r, ds) {
        InMultiset(ps, ds);
        RedeliveryChangesNothing(rules, r, ds, ps);
      }
    }
  }

  /** A tombstone is cleared and its node announces itself: back or away, as the clearing is heard first or last. */
  lemma ReadmissionRaces(rules: Rules, removed: Registers.Entry<NodeId, Removal>,
                         clearing: Registers.Entry<NodeId, Removal>, d: Member)
    requires removed.key == clearing.key == d.id && !removed.content.cleared && clearing.content.cleared
    requires Newer(clearing.version, removed.version) && rules.tombstones.valid(clearing)
    requires rules.valid(d) && d.id != rules.localId && 0 < rules.maxMembers
    ensures var r := Replica(map[], map[d.id := removed], map[], map[]);
      && Deliver(rules, r, [Removed(clearing), Said(d)]).members == map[d.id := d]
      && Deliver(rules, r, [Said(d), Removed(clearing)]).members == map[]
  {
    var r := Replica(map[], map[d.id := removed], map[], map[]);
    hide *;
    DeliverTwo(rules, r, Removed(clearing), Said(d));
    DeliverTwo(rules, r, Said(d), Removed(clearing));
    Clears(rules, removed, clearing);
    FencedIsUnheard(rules, removed, d);
    OpenIsHeard(rules, clearing, d);
  }

  lemma Clears(rules: Rules, removed: Registers.Entry<NodeId, Removal>, clearing: Registers.Entry<NodeId, Removal>)
    requires removed.key == clearing.key && Newer(clearing.version, removed.version)
    requires rules.tombstones.valid(clearing)
    ensures Apply(rules, Replica(map[], map[removed.key := removed], map[], map[]), Removed(clearing))
      == Replica(map[], map[removed.key := clearing], map[], map[])
  {
    hide Newer;
    assert map[removed.key := removed][removed.key := clearing] == map[removed.key := clearing];
  }

  lemma FencedIsUnheard(rules: Rules, removed: Registers.Entry<NodeId, Removal>, d: Member)
    requires removed.key == d.id && !removed.content.cleared
    ensures var r := Replica(map[], map[d.id := removed], map[], map[]); Apply(rules, r, Said(d)) == r
  {
    assert d.id in Fenced(map[d.id := removed]);
    hide Absorbed, Fenced;
  }

  lemma OpenIsHeard(rules: Rules, cleared: Registers.Entry<NodeId, Removal>, d: Member)
    requires cleared.key == d.id && cleared.content.cleared
    requires rules.valid(d) && d.id != rules.localId && 0 < rules.maxMembers
    ensures var r := Replica(map[], map[d.id := cleared], map[], map[]);
      Apply(rules, r, Said(d)).members == map[d.id := d]
  {
    assert d.id !in Fenced(map[d.id := cleared]);
    hide Absorbed, Fenced;
  }

  lemma DeliverTwo(rules: Rules, r: Replica, a: Delta, b: Delta)
    ensures Deliver(rules, r, [a, b]) == Apply(rules, Apply(rules, r, a), b)
  {
    hide Apply;
    DeliverMore(rules, r, [], a);
    DeliverMore(rules, r, [a], b);
    assert [] + [a] == [a] && [a] + [b] == [a, b];
  }
}
