/**
 Runs of gossip of every kind (crates/orishu-membership/src/merge.rs:104-116): what each kind of record sees of a
 delivery, and deliveries sorted by kind.
 */
module GossipDelivery {
  import opened Aggregates
  import opened MemberMerge
  import opened Versions
  import Registers

  ghost function Deliver(rules: Rules, r: Replica, ds: seq<Delta>): Replica {
    if ds == [] then r else Apply(rules, Deliver(rules, r, ds[..|ds| - 1]), ds[|ds| - 1])
  }

  lemma DeliverSnoc(rules: Rules, r: Replica, ds: seq<Delta>)
    requires ds != []
    ensures ds == ds[..|ds| - 1] + [ds[|ds| - 1]]
    ensures Deliver(rules, r, ds) == Apply(rules, Deliver(rules, r, ds[..|ds| - 1]), ds[|ds| - 1])
  {
  }

  lemma DeliverMore(rules: Rules, r: Replica, ps: seq<Delta>, d: Delta)
    ensures Deliver(rules, r, ps + [d]) == Apply(rules, Deliver(rules, r, ps), d)
  {
    DeliverSnoc(rules, r, ps + [d]);
    assert (ps + [d])[..|ps|] == ps;
  }

  lemma DeliverBoth(rules: Rules, r: Replica, ps: seq<Delta>, qs: seq<Delta>)
    ensures Deliver(rules, r, ps + qs) == Deliver(rules, Deliver(rules, r, ps), qs)
  {
    if qs == [] {
      assert ps + qs == ps;
    } else {
      var n := |qs| - 1;
      assert ps + qs == (ps + qs[..n]) + [qs[n]];
      hide Apply;
      DeliverBoth(rules, r, ps, qs[..n]);
      DeliverMore(rules, r, ps + qs[..n], qs[n]);
      DeliverSnoc(rules, Deliver(rules, r, ps), qs);
    }
  }

  // ---- What each kind sees ----

  function TombstoneOf(d: Delta): Option<Registers.Entry<NodeId, Removal>> {
    if d.Removed? then Some(d.tombstone) else None
  }

  function TombNews(ds: seq<Delta>): (es: seq<Option<Registers.Entry<NodeId, Removal>>>)
    ensures |es| == |ds| && forall i :: 0 <= i < |ds| ==> es[i] == TombstoneOf(ds[i])
  {
    seq(|ds|, i requires 0 <= i < |ds| => TombstoneOf(ds[i]))
  }

  function EntryOf(d: Delta): Option<Registers.Entry<string, nat>> {
    if d.Listed? then Some(d.entry) else None
  }

  function Listings(ds: seq<Delta>): (es: seq<Option<Registers.Entry<string, nat>>>)
    ensures |es| == |ds| && forall i :: 0 <= i < |ds| ==> es[i] == EntryOf(ds[i])
  {
    seq(|ds|, i requires 0 <= i < |ds| => EntryOf(ds[i]))
  }

  function PolicyOf(d: Delta): Option<Registers.Entry<PolicyKey, nat>> {
    if d.Governed? then Some(d.policy) else None
  }

  function Policies(ds: seq<Delta>): (es: seq<Option<Registers.Entry<PolicyKey, nat>>>)
    ensures |es| == |ds| && forall i :: 0 <= i < |ds| ==> es[i] == PolicyOf(ds[i])
  {
    seq(|ds|, i requires 0 <= i < |ds| => PolicyOf(ds[i]))
  }

  /** The member records of a delivery. */
  function Sayings(ds: seq<Delta>): (r: seq<Member>)
    ensures forall d :: d in r <==> Said(d) in ds
  {
    if ds == [] then [] else
      var n := |ds| - 1;
      var rest := Sayings(ds[..n]);
      assert forall d :: d in ds <==> d in ds[..n] || d == ds[n];
      if ds[n].Said? then rest + [ds[n].member] else rest
  }

  lemma SayingsMore(ps: seq<Delta>, d: Delta)
    ensures Sayings(ps + [d]) == if d.Said? then Sayings(ps) + [d.member] else Sayings(ps)
  {
    assert (ps + [d])[..|ps|] == ps;
  }

  lemma RegistersStep(rules: Rules, r: Replica, d: Delta)
    ensures var after := Apply(rules, r, d);
      && after.tombstones == Registers.Step(rules.tombstones, r.tombstones, TombstoneOf(d))
      && after.blocklist == Registers.Step(rules.blocklist, r.blocklist, EntryOf(d))
      && after.policy == Registers.Step(ONE_POLICY, r.policy, PolicyOf(d))
  {
    hide Step, Registers.Takes, Newer, Under;
  }

  lemma NewsMore(ps: seq<Delta>, d: Delta)
    ensures TombNews(ps + [d]) == TombNews(ps) + [TombstoneOf(d)]
    ensures Listings(ps + [d]) == Listings(ps) + [EntryOf(d)]
    ensures Policies(ps + [d]) == Policies(ps) + [PolicyOf(d)]
  {
  }

  /** Tombstones, blocklist and policy each see only their own news. */
  lemma RegistersSee(rules: Rules, r: Replica, ds: seq<Delta>)
    ensures var after := Deliver(rules, r, ds);
      && after.tombstones == Registers.Run(rules.tombstones, r.tombstones, TombNews(ds))
      && after.blocklist == Registers.Run(rules.blocklist, r.blocklist, Listings(ds))
      && after.policy == Registers.Run(ONE_POLICY, r.policy, Policies(ds))
  {
    if ds == [] {
    } else {
      var n := |ds| - 1;
      RegistersSee(rules, r, ds[..n]);
      DeliverSnoc(rules, r, ds);
      NewsMore(ds[..n], ds[n]);
      RegistersStep(rules, Deliver(rules, r, ds[..n]), ds[n]);
      hide Deliver, Apply, TombNews, Listings, Policies, TombstoneOf, EntryOf, PolicyOf, Registers.Step;
      Registers.RunMore(rules.tombstones, r.tombstones, TombNews(ds[..n]), TombstoneOf(ds[n]));
      Registers.RunMore(rules.blocklist, r.blocklist, Listings(ds[..n]), EntryOf(ds[n]));
      Registers.RunMore(ONE_POLICY, r.policy, Policies(ds[..n]), PolicyOf(ds[n]));
    }
  }

  // ---- Deliveries sorted by kind ----

  /** The deltas of one kind, in their order. */
  ghost function Part(ds: seq<Delta>, kind: Delta -> nat, k: nat): (r: seq<Delta>)
    ensures forall d :: d in r <==> d in ds && kind(d) == k
  {
    if ds == [] then [] else
      var n := |ds| - 1;
      var rest := Part(ds[..n], kind, k);
      assert forall d :: d in ds <==> d in ds[..n] || d == ds[n];
      if kind(ds[n]) == k then rest + [ds[n]] else rest
  }

  lemma PartsAreAll(ds: seq<Delta>, kind: Delta -> nat)
    requires forall d :: d in ds ==> kind(d) < 4
    ensures multiset(Part(ds, kind, 0)) + multiset(Part(ds, kind, 1)) + multiset(Part(ds, kind, 2))
      + multiset(Part(ds, kind, 3)) == multiset(ds)
  {
    if ds == [] {
    } else {
      var n := |ds| - 1;
      assert ds == ds[..n] + [ds[n]];
      assert ds[n] in ds && forall d :: d in ds[..n] ==> d in ds;
      PartsAreAll(ds[..n], kind);
    }
  }

  function AllSaid(xs: seq<Member>): (r: seq<Delta>)
    ensures |r| == |xs| && forall i :: 0 <= i < |xs| ==> r[i] == Said(xs[i])
  {
    seq(|xs|, i requires 0 <= i < |xs| => Said(xs[i]))
  }

  lemma PartIsSaid(ds: seq<Delta>, kind: Delta -> nat, k: nat)
    requires forall d :: d in ds ==> (kind(d) == k <==> d.Said?)
    ensures Part(ds, kind, k) == AllSaid(Sayings(ds))
  {
    if ds == [] {
    } else {
      var n := |ds| - 1;
      assert ds[n] in ds && forall d :: d in ds[..n] ==> d in ds;
      PartIsSaid(ds[..n], kind, k);
      var rest := Sayings(ds[..n]);
      hide Sayings;
      assert ds == ds[..n] + [ds[n]];
      SayingsMore(ds[..n], ds[n]);
    }
  }

  lemma SayingsOf(xs: seq<Member>)
    ensures Sayings(AllSaid(xs)) == xs
  {
    if xs == [] {
    } else {
      var n := |xs| - 1;
      assert AllSaid(xs)[..n] == AllSaid(xs[..n]);
      SayingsOf(xs[..n]);
    }
  }

  lemma Without<T>(s: seq<T>, i: nat)
    requires i < |s|
    ensures multiset(s) == multiset(s[..i] + s[i + 1..]) + multiset{s[i]}
  {
    assert s == s[..i] + [s[i]] + s[i + 1..];
  }

  lemma SameRest<T>(a: multiset<T>, b: multiset<T>, x: T)
    requires a + multiset{x} == b + multiset{x}
    ensures a == b
  {
    assert a == (a + multiset{x}) - multiset{x};
    assert b == (b + multiset{x}) - multiset{x};
  }

  lemma SaidWithout(xs: seq<Member>, i: nat)
    requires i < |xs|
    ensures multiset(AllSaid(xs)) == multiset(AllSaid(xs[..i] + xs[i + 1..])) + multiset{Said(xs[i])}
  {
    var ds := AllSaid(xs);
    assert AllSaid(xs[..i] + xs[i + 1..]) == ds[..i] + ds[i + 1..];
    Without(ds, i);
  }

  lemma SaidAlike(xs: seq<Member>, ys: seq<Member>)
    requires multiset(xs) == multiset(ys)
    ensures multiset(AllSaid(xs)) == multiset(AllSaid(ys))
  {
    if xs == [] {
      assert |multiset(ys)| == 0;
    } else {
      var n := |xs| - 1;
      assert xs[n] in multiset(ys);
      var i: nat :| i < |ys| && ys[i] == xs[n];
      hide AllSaid;
      Without(xs, n);
      Without(ys, i);
      SaidWithout(xs, n);
      SaidWithout(ys, i);
      var rest := ys[..i] + ys[i + 1..];
      assert xs[..n] + xs[n + 1..] == xs[..n];
      assert multiset(xs[..n]) == multiset(rest) by { SameRest(multiset(xs[..n]), multiset(rest), xs[n]); }
      SaidAlike(xs[..n], rest);
    }
  }

  /** Member records alone move members alone, under the fences that stand. */
  lemma SaidRun(rules: Rules, r: Replica, xs: seq<Member>)
    ensures Deliver(rules, r, AllSaid(xs))
      == r.(members := Run(Under(rules, r.tombstones), r.members, xs))
  {
    if xs == [] {
    } else {
      var n := |xs| - 1;
      assert AllSaid(xs) == AllSaid(xs[..n]) + [Said(xs[n])];
      SaidRun(rules, r, xs[..n]);
      DeliverMore(rules, r, AllSaid(xs[..n]), Said(xs[n]));
      hide Deliver, Step;
    }
  }

  /** Listings and policies leave members and tombstones alone. */
  lemma OthersRun(rules: Rules, r: Replica, ds: seq<Delta>)
    requires forall d :: d in ds ==> d.Listed? || d.Governed?
    ensures Deliver(rules, r, ds).members == r.members && Deliver(rules, r, ds).tombstones == r.tombstones
  {
    if ds == [] {
    } else {
      var n := |ds| - 1;
      assert ds[n] in ds && forall d :: d in ds[..n] ==> d in ds;
      OthersRun(rules, r, ds[..n]);
    }
  }
}
