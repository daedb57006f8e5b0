/**
 Delivery of member records in any order (crates/orishu-membership/src/merge.rs): nodes that hear the same records agree
 exactly when there is room for all newcomers or none, and nobody's certificate, last description or death is disputed.
 */
module MemberDelivery {
  import opened Aggregates
  import opened MemberMerge
  import opened Versions

  /** Deltas that can have an effect: heard, and about a record with this certificate or one there is room for. */
  predicate Counts(f: Formation, s: Members, d: Member) {
    Heard(f, d) && if d.id in s then d.certificate == s[d.id].certificate else |s| < f.maxMembers
  }

  predicate News(f: Formation, s: Members, ds: seq<Member>, id: NodeId, x: Member) {
    x in ds && x.id == id && Counts(f, s, x)
  }

  function Newcomers(f: Formation, s: Members, ds: seq<Member>): set<NodeId> {
    set x | x in ds && Counts(f, s, x) && x.id !in s :: x.id
  }

  /** Every newcomer finds room, or none does. */
  predicate Roomy(f: Formation, s: Members, ds: seq<Member>) {
    |s| >= f.maxMembers || |s.Keys + Newcomers(f, s, ds)| <= f.maxMembers
  }

  /** Nobody's first record is disputed by another certificate. */
  ghost predicate OneCertificate(f: Formation, s: Members, ds: seq<Member>) {
    forall id, x, y :: id !in s && News(f, s, ds, id, x) && News(f, s, ds, id, y) ==> x.certificate == y.certificate
  }

  /** Later than anything said about the node before. */
  predicate Redescribes(s: Members, x: Member) { x.id in s ==> Newer(x.version, s[x.id].version) }

  predicate Topmost(f: Formation, s: Members, ds: seq<Member>, id: NodeId, x: Member) {
    News(f, s, ds, id, x) && Redescribes(s, x) && forall z :: z in ds && News(f, s, ds, id, z) ==>
      !Newer(z.version, x.version)
  }

  /** No two descriptions share a node's highest version, unless it is already held. */
  ghost predicate OneDescription(f: Formation, s: Members, ds: seq<Member>) {
    forall id, x, y :: Topmost(f, s, ds, id, x) && Topmost(f, s, ds, id, y) && x.version == y.version ==>
      x.description == y.description
  }

  /** A death the held record would accept. */
  predicate Fatal(f: Formation, s: Members, ds: seq<Member>, id: NodeId, x: Member) {
    News(f, s, ds, id, x) && x.liveness.Dead?
      && (id in s ==> !s[id].liveness.Dead? && x.incarnation >= s[id].incarnation)
  }

  /** A death in time is told at one incarnation, which no sign of life passes. */
  ghost predicate OneDeath(f: Formation, s: Members, ds: seq<Member>) {
    forall id, x, y :: Fatal(f, s, ds, id, x) && News(f, s, ds, id, y) ==>
      y.incarnation <= x.incarnation && (Fatal(f, s, ds, id, y) ==> y.incarnation == x.incarnation)
  }

  ghost predicate Compatible(f: Formation, s: Members, ds: seq<Member>) {
    Roomy(f, s, ds) && OneCertificate(f, s, ds) && OneDescription(f, s, ds) && OneDeath(f, s, ds)
  }

  ghost predicate OrdersAgree(f: Formation, s: Members, ds: seq<Member>) {
    forall p :: multiset(p) == multiset(ds) ==> Run(f, s, p) == Run(f, s, ds)
  }

  // ---- One delivery, seen from one node's record ----

  ghost function At(s: Members, id: NodeId): Option<Member> { if id in s then Some(s[id]) else None }

  lemma KeysGrow(f: Formation, s: Members, ds: seq<Member>)
    ensures s.Keys <= Run(f, s, ds).Keys <= s.Keys + Newcomers(f, s, ds)
    ensures |s| <= |Run(f, s, ds)|
  {
    if ds == [] {
    } else {
      var n := |ds| - 1;
      KeysGrow(f, s, ds[..n]);
      NewcomersGrow(f, s, ds[..n], ds);
      KeysStep(f, s, Run(f, s, ds[..n]), ds[n]);
      if Counts(f, s, ds[n]) && ds[n].id !in s { Comes(f, s, ds, ds[n]); }
      hide Newcomers, Counts, Step;
      assert s.Keys <= Run(f, s, ds).Keys <= s.Keys + Newcomers(f, s, ds);
      Subset(s.Keys, Run(f, s, ds).Keys);
      assert |s| == |s.Keys| && |Run(f, s, ds)| == |Run(f, s, ds).Keys|;
    }
  }

  lemma Comes(f: Formation, s: Members, ds: seq<Member>, d: Member)
    requires d in ds && Counts(f, s, d) && d.id !in s
    ensures d.id in Newcomers(f, s, ds)
  {
  }

  lemma KeysStep(f: Formation, s: Members, t: Members, d: Member)
    requires s.Keys <= t.Keys && |s| <= |t|
    ensures t.Keys <= Step(f, t, d).Keys <= t.Keys + {d.id}
    ensures d.id in Step(f, t, d) && d.id !in t ==> Counts(f, s, d)
  {
    hide Heard, Absorbed;
  }

  lemma NewsStay(f: Formation, s: Members, ps: seq<Member>, qs: seq<Member>, id: NodeId, x: Member)
    requires (forall y :: y in ps ==> y in qs) && News(f, s, ps, id, x)
    ensures News(f, s, qs, id, x)
  {
  }

  lemma NewcomersGrow(f: Formation, s: Members, ps: seq<Member>, qs: seq<Member>)
    requires forall x :: x in ps ==> x in qs
    ensures Newcomers(f, s, ps) <= Newcomers(f, s, qs)
    ensures Roomy(f, s, qs) ==> Roomy(f, s, ps)
  {
    hide Counts;
    assert Newcomers(f, s, ps) <= Newcomers(f, s, qs);
    Subset(s.Keys + Newcomers(f, s, ps), s.Keys + Newcomers(f, s, qs));
  }

  lemma PairsStay(f: Formation, s: Members, ps: seq<Member>, qs: seq<Member>)
    requires forall x :: x in ps ==> x in qs
    ensures OneCertificate(f, s, qs) ==> OneCertificate(f, s, ps)
    ensures OneDeath(f, s, qs) ==> OneDeath(f, s, ps)
  {
    forall id, x | News(f, s, ps, id, x) ensures News(f, s, qs, id, x) { NewsStay(f, s, ps, qs, id, x); }
    hide News;
  }

  lemma CertificateStep(f: Formation, t: Members, d: Member, id: NodeId)
    ensures id in t ==> id in Step(f, t, d) && Step(f, t, d)[id].certificate == t[id].certificate
    ensures id !in t && id in Step(f, t, d) ==> id == d.id && Step(f, t, d)[id] == d
  {
    hide Newer, Supersedes, Heard;
  }

  /** A certificate, once held, stays; a newcomer's is one of those it was announced with. */
  lemma CertificateStays(f: Formation, s: Members, ds: seq<Member>, id: NodeId)
    requires id in Run(f, s, ds)
    ensures id in s ==> Run(f, s, ds)[id].certificate == s[id].certificate
    ensures id !in s ==> exists x :: News(f, s, ds, id, x) && x.certificate == Run(f, s, ds)[id].certificate
  {
    if ds == [] {
    } else {
      var n := |ds| - 1;
      var t := Run(f, s, ds[..n]);
      RunSnoc(f, s, ds);
      CertificateStep(f, t, ds[n], id);
      KeysGrow(f, s, ds[..n]);
      KeysStep(f, s, t, ds[n]);
      hide Counts, Newcomers, Step, Run;
      if id !in t {
        assert News(f, s, ds, id, ds[n]);
      } else {
        CertificateStays(f, s, ds[..n], id);
        if id !in s {
          var x :| News(f, s, ds[..n], id, x) && x.certificate == t[id].certificate;
          NewsStay(f, s, ds[..n], ds, id, x);
        }
      }
    }
  }

  /** A delta that counts is adopted whole or absorbed; any other leaves the record alone. */
  lemma Arrives(f: Formation, s: Members, ps: seq<Member>, d: Member)
    requires Roomy(f, s, ps + [d])
    ensures var t := Run(f, s, ps); var after := Step(f, t, d);
      && (Counts(f, s, d) && d.id in t ==> after == t[d.id := Absorbed(t[d.id], d)])
      && (Counts(f, s, d) && d.id !in t ==> after == t[d.id := d])
      && (!Counts(f, s, d) ==> At(after, d.id) == At(t, d.id))
  {
    KeysGrow(f, s, ps);
    var t := Run(f, s, ps);
    if Counts(f, s, d) && d.id !in t {
      var qs := ps + [d];
      Comes(f, s, qs, d);
      NewcomersGrow(f, s, ps, qs);
      hide Newcomers, Heard;
      Fewer(t.Keys, s.Keys + Newcomers(f, s, qs), d.id);
      assert |t| == |t.Keys|;
    } else if Heard(f, d) && d.id in s {
      CertificateStays(f, s, ps, d.id);
    } else if Heard(f, d) && d.id in t {
      var x :| x in ps && Counts(f, s, x) && x.id !in s && x.id == d.id;
    }
  }

  lemma RunSnoc(f: Formation, s: Members, ds: seq<Member>)
    requires ds != []
    ensures ds == ds[..|ds| - 1] + [ds[|ds| - 1]]
    ensures Run(f, s, ds) == Step(f, Run(f, s, ds[..|ds| - 1]), ds[|ds| - 1])
  {
  }

  // ---- What a record says after a delivery ----

  /** The description of the highest version heard; the held one wins a tie. */
  ghost predicate Described(f: Formation, s: Members, ds: seq<Member>, id: NodeId, v: Version, description: nat) {
    && (id in s ==> !Newer(s[id].version, v))
    && (forall x :: News(f, s, ds, id, x) ==> !Newer(x.version, v))
    && ((id in s && v == s[id].version && description == s[id].description)
        || exists x :: News(f, s, ds, id, x) && Redescribes(s, x) && v == x.version && description == x.description)
  }

  ghost predicate Doomed(f: Formation, s: Members, ds: seq<Member>, id: NodeId) {
    exists x :: Fatal(f, s, ds, id, x)
  }

  ghost predicate DeadFromTheStart(s: Members, id: NodeId) { id in s && s[id].liveness.Dead? }

  /** No sign of life outranks this one, and it is one of those given. */
  ghost predicate LastSign(f: Formation, s: Members, ds: seq<Member>, id: NodeId, l: Liveness, i: nat) {
    && !l.Dead?
    && (id in s ==> !Supersedes(s[id].liveness, s[id].incarnation, l, i) && i >= s[id].incarnation)
    && (forall x :: News(f, s, ds, id, x) && !x.liveness.Dead? ==> !Supersedes(x.liveness, x.incarnation, l, i))
    && ((id in s && l == s[id].liveness && i == s[id].incarnation)
        || exists x :: News(f, s, ds, id, x) && l == x.liveness && i == x.incarnation)
  }

  /** Dead as held, dead as told in time, or the last sign of life. */
  ghost predicate Ended(f: Formation, s: Members, ds: seq<Member>, id: NodeId, l: Liveness, i: nat) {
    if DeadFromTheStart(s, id) then l.Dead? && i == s[id].incarnation
    else if Doomed(f, s, ds, id) then l.Dead? && forall x :: Fatal(f, s, ds, id, x) ==> i == x.incarnation
    else LastSign(f, s, ds, id, l, i)
  }

  ghost predicate Tracked(f: Formation, s: Members, ds: seq<Member>, id: NodeId, o: Option<Member>) {
    if o.None? then id !in s && forall x :: !News(f, s, ds, id, x) else
      && o.value.id == id
      && Described(f, s, ds, id, o.value.version, o.value.description)
      && Ended(f, s, ds, id, o.value.liveness, o.value.incarnation)
  }

  /** News after one more delta. */
  lemma NewsStep(f: Formation, s: Members, ps: seq<Member>, d: Member, id: NodeId, x: Member)
    ensures News(f, s, ps + [d], id, x) <==> News(f, s, ps, id, x) || (x == d && d.id == id && Counts(f, s, d))
  {
  }

  lemma SameNews(f: Formation, s: Members, ps: seq<Member>, qs: seq<Member>, id: NodeId, o: Option<Member>)
    requires forall x :: News(f, s, ps, id, x) <==> News(f, s, qs, id, x)
    requires Tracked(f, s, ps, id, o)
    ensures Tracked(f, s, qs, id, o)
  {
    hide News;
    forall x ensures Fatal(f, s, ps, id, x) <==> Fatal(f, s, qs, id, x) { }
    hide Fatal, Newer, Supersedes;
  }

  lemma FirstNews(f: Formation, s: Members, ds: seq<Member>, d: Member)
    requires d.id !in s && forall x :: News(f, s, ds, d.id, x) <==> x == d
    ensures Tracked(f, s, ds, d.id, Some(d))
  {
    hide News;
    assert News(f, s, ds, d.id, d);
    if d.liveness.Dead? { assert Fatal(f, s, ds, d.id, d); }
  }

  lemma Redescribed(f: Formation, s: Members, ps: seq<Member>, d: Member, v: Version, description: nat)
    requires Described(f, s, ps, d.id, v, description) && Counts(f, s, d)
    ensures var newer := Newer(d.version, v);
      Described(f, s, ps + [d], d.id, if newer then d.version else v, if newer then d.description else description)
  {
    forall x ensures News(f, s, ps + [d], d.id, x) <==>
      News(f, s, ps, d.id, x) || x == d { NewsStep(f, s, ps, d, d.id, x); }
    hide News, Counts;
  }

  lemma FatalStep(f: Formation, s: Members, ps: seq<Member>, d: Member, x: Member)
    requires Counts(f, s, d)
    ensures Fatal(f, s, ps + [d], d.id, x) <==>
      Fatal(f, s, ps, d.id, x) || (x == d && d.liveness.Dead?
        && (d.id in s ==> !s[d.id].liveness.Dead? && d.incarnation >= s[d.id].incarnation))
  {
    NewsStep(f, s, ps, d, d.id, x);
    hide News, Counts;
  }

  lemma EndsAgain(f: Formation, s: Members, ps: seq<Member>, d: Member, l: Liveness, i: nat)
    requires Ended(f, s, ps, d.id, l, i) && Counts(f, s, d) && OneDeath(f, s, ps + [d])
    ensures var wins := Supersedes(d.liveness, d.incarnation, l, i);
      Ended(f, s, ps + [d], d.id, if wins then d.liveness else l, if wins then d.incarnation else i)
  {
    var id, qs := d.id, ps + [d];
    forall x ensures News(f, s, qs, id, x) <==> News(f, s, ps, id, x) || x == d { NewsStep(f, s, ps, d, id, x); }
    forall x ensures Fatal(f, s, qs, id, x) ==> Fatal(f, s, ps, id, x) || x == d { FatalStep(f, s, ps, d, x); }
    forall x ensures Fatal(f, s, ps, id, x) ==> Fatal(f, s, qs, id, x) { FatalStep(f, s, ps, d, x); }
    if DeadFromTheStart(s, id) {
    } else if Doomed(f, s, ps, id) {
      hide News, Counts;
      var x :| Fatal(f, s, ps, id, x);
      assert Fatal(f, s, qs, id, x) && News(f, s, qs, id, d);
    } else if Fatal(f, s, qs, id, d) {
      hide News, Counts;
      Outlived(f, s, ps, d, l, i);
    } else {
      hide Counts;
      assert !Doomed(f, s, qs, id);
      if d.liveness.Dead? { Untimely(f, s, qs, d); }
      hide News, Fatal, Doomed, OneDeath;
      assert LastSign(f, s, ps, id, l, i);
    }
  }

  /** A death in time is never refused: no sign of life heard so far passes it. */
  lemma Outlived(f: Formation, s: Members, ps: seq<Member>, d: Member, l: Liveness, i: nat)
    requires OneDeath(f, s, ps + [d]) && Fatal(f, s, ps + [d], d.id, d) && LastSign(f, s, ps, d.id, l, i)
    requires forall x :: News(f, s, ps + [d], d.id, x) <==> News(f, s, ps, d.id, x) || x == d
    ensures i <= d.incarnation
  {
    hide News;
    if x :| News(f, s, ps, d.id, x) && l == x.liveness && i == x.incarnation {
      assert News(f, s, ps + [d], d.id, x);
    }
  }

  lemma Untimely(f: Formation, s: Members, qs: seq<Member>, d: Member)
    requires News(f, s, qs, d.id, d) && d.liveness.Dead? && !Fatal(f, s, qs, d.id, d) && !DeadFromTheStart(s, d.id)
    ensures d.id in s && d.incarnation < s[d.id].incarnation
  {
  }

  /** A node's record after a delivery says what the records delivered say of it, whatever their order. */
  lemma DeliveryIsTracked(f: Formation, s: Members, ds: seq<Member>, id: NodeId)
    requires Keyed(s) && Roomy(f, s, ds) && OneCertificate(f, s, ds) && OneDeath(f, s, ds)
    ensures Tracked(f, s, ds, id, At(Run(f, s, ds), id))
  {
    if ds == [] {
      NothingHeard(f, s, id);
    } else {
      var n := |ds| - 1;
      var ps, d := ds[..n], ds[n];
      RunSnoc(f, s, ds);
      NewcomersGrow(f, s, ps, ds);
      PairsStay(f, s, ps, ds);
      DeliveryIsTracked(f, s, ps, id);
      Arrives(f, s, ps, d);
      TrackedAgain(f, s, ps, d, id);
    }
  }

  lemma NothingHeard(f: Formation, s: Members, id: NodeId)
    requires Keyed(s)
    ensures Tracked(f, s, [], id, At(s, id))
  {
  }

  lemma TrackedAgain(f: Formation, s: Members, ps: seq<Member>, d: Member, id: NodeId)
    requires Roomy(f, s, ps + [d]) && OneCertificate(f, s, ps + [d]) && OneDeath(f, s, ps + [d])
    requires Tracked(f, s, ps, id, At(Run(f, s, ps), id))
    ensures Tracked(f, s, ps + [d], id, At(Step(f, Run(f, s, ps), d), id))
  {
    var t := Run(f, s, ps);
    Arrives(f, s, ps, d);
    forall x { NewsStep(f, s, ps, d, id, x); }
    hide Run;
    if d.id != id || !Counts(f, s, d) {
      assert At(Step(f, t, d), id) == At(t, id);
      SameNews(f, s, ps, ps + [d], id, At(t, id));
    } else if id !in t {
      FirstNews(f, s, ps + [d], d);
    } else {
      SameCertificate(f, s, ps, d);
      Redescribed(f, s, ps, d, t[id].version, t[id].description);
      EndsAgain(f, s, ps, d, t[id].liveness, t[id].incarnation);
      hide Described, Ended, Counts, Newer, Supersedes, News;
    }
  }

  lemma SameCertificate(f: Formation, s: Members, ps: seq<Member>, d: Member)
    requires OneCertificate(f, s, ps + [d]) && Counts(f, s, d) && d.id in Run(f, s, ps)
    ensures Run(f, s, ps)[d.id].certificate == d.certificate
  {
    CertificateStays(f, s, ps, d.id);
    hide Run;
    if d.id !in s {
      var x :| News(f, s, ps, d.id, x) && x.certificate == Run(f, s, ps)[d.id].certificate;
      NewsStep(f, s, ps, d, d.id, x);
      NewsStep(f, s, ps, d, d.id, d);
    }
  }

  // ---- Compatible records arrive in any order ----

  ghost predicate SameRecords(p: seq<Member>, q: seq<Member>) { forall x :: x in p <==> x in q }

  lemma OneVersion(f: Formation, s: Members, ds: seq<Member>, id: NodeId, v: Version, a: nat, w: Version, b: nat)
    requires Described(f, s, ds, id, v, a) && Described(f, s, ds, id, w, b) && OneDescription(f, s, ds)
    ensures v == w && a == b
  {
    assert v == w && !Newer(v, v);
    if id in s && v == s[id].version {
    } else {
      var x :| News(f, s, ds, id, x) && Redescribes(s, x) && v == x.version && a == x.description;
      var y :| News(f, s, ds, id, y) && Redescribes(s, y) && w == y.version && b == y.description;
      assert Topmost(f, s, ds, id, x) && Topmost(f, s, ds, id, y);
    }
  }

  lemma OneEnd(f: Formation, s: Members, ds: seq<Member>, id: NodeId, l: Liveness, i: nat, m: Liveness, j: nat)
    requires Ended(f, s, ds, id, l, i) && Ended(f, s, ds, id, m, j)
    ensures l == m && i == j
  {
    hide News, Fatal;
  }

  lemma SameCompatible(f: Formation, s: Members, p: seq<Member>, q: seq<Member>)
    requires SameRecords(p, q) && Compatible(f, s, p)
    ensures Compatible(f, s, q)
    ensures forall id, x :: News(f, s, q, id, x) <==> News(f, s, p, id, x)
  {
    NewcomersGrow(f, s, q, p);
    PairsStay(f, s, q, p);
    forall id, x ensures News(f, s, q, id, x) <==> News(f, s, p, id, x) { }
    hide News, Roomy, OneCertificate, OneDeath;
    forall id, x | Topmost(f, s, q, id, x) ensures Topmost(f, s, p, id, x) { }
    hide Topmost;
  }

  lemma RecordsAgree(f: Formation, s: Members, p: seq<Member>, q: seq<Member>, id: NodeId)
    requires Keyed(s) && SameRecords(p, q) && Compatible(f, s, p)
    ensures At(Run(f, s, p), id) == At(Run(f, s, q), id)
  {
    SameCompatible(f, s, p, q);
    DeliveryIsTracked(f, s, p, id);
    DeliveryIsTracked(f, s, q, id);
    var a, b := At(Run(f, s, p), id), At(Run(f, s, q), id);
    SameNews(f, s, q, p, id, b);
    if a.Some? && b.Some? {
      OneVersion(f, s, p, id, a.value.version, a.value.description, b.value.version, b.value.description);
      OneEnd(f, s, p, id, a.value.liveness, a.value.incarnation, b.value.liveness, b.value.incarnation);
      CertificateStays(f, s, p, id);
      CertificateStays(f, s, q, id);
      hide Run, Described, Ended, Compatible, SameRecords;
    } else {
      SomeNews(f, s, p, id, a, b);
    }
  }

  lemma SomeNews(f: Formation, s: Members, ds: seq<Member>, id: NodeId, a: Option<Member>, b: Option<Member>)
    requires Tracked(f, s, ds, id, a) && Tracked(f, s, ds, id, b)
    ensures a.None? <==> b.None?
  {
    hide News;
  }

  /** Redelivered and reordered records converge: only which records came matters, not when or how often. */
  lemma RedeliveryChangesNothing(f: Formation, s: Members, p: seq<Member>, q: seq<Member>)
    requires Keyed(s) && Compatible(f, s, p) && SameRecords(p, q)
    ensures Run(f, s, p) == Run(f, s, q)
  {
    var a, b := Run(f, s, p), Run(f, s, q);
    forall id ensures At(a, id) == At(b, id) { RecordsAgree(f, s, p, q, id); }
    hide Run, Compatible, SameRecords;
    forall id ensures id in a <==> id in b { assert At(a, id) == At(b, id); }
    forall id | id in a ensures a[id] == b[id] { assert At(a, id) == At(b, id); }
  }

  // ---- Others do not ----

  lemma RunFrom(f: Formation, s: Members, d: Member, rest: seq<Member>)
    ensures Run(f, s, [d] + rest) == Run(f, Step(f, s, d), rest)
  {
    var ds := [d] + rest;
    if rest == [] {
      assert ds[..0] == [];
    } else {
      var n := |rest| - 1;
      assert ds[..|ds| - 1] == [d] + rest[..n];
      RunFrom(f, s, d, rest[..n]);
      hide Step;
    }
  }

  /** What no later delta can undo. */
  ghost predicate Lasting(t: Member, u: Member) {
    && u.certificate == t.certificate && u.incarnation >= t.incarnation
    && (t.liveness.Dead? ==> u.liveness.Dead? && u.incarnation == t.incarnation)
  }

  lemma Lasts(f: Formation, t: Members, rest: seq<Member>, id: NodeId)
    requires id in t
    ensures id in Run(f, t, rest) && Lasting(t[id], Run(f, t, rest)[id])
  {
    if rest == [] {
    } else {
      var n := |rest| - 1;
      Lasts(f, t, rest[..n], id);
      hide Run;
      RunSnoc(f, t, rest);
      LastsStep(f, Run(f, t, rest[..n]), rest[n], id);
    }
  }

  lemma LastsStep(f: Formation, t: Members, d: Member, id: NodeId)
    requires id in t
    ensures id in Step(f, t, d) && Lasting(t[id], Step(f, t, d)[id])
  {
    hide Newer, Heard;
  }

  /** A description nothing outranks stays. */
  lemma TopStays(f: Formation, t: Members, rest: seq<Member>, id: NodeId)
    requires id in t
    requires forall d :: d in rest && Heard(f, d) && d.id == id && d.certificate == t[id].certificate ==>
      !Newer(d.version, t[id].version)
    ensures id in Run(f, t, rest) && Run(f, t, rest)[id].description == t[id].description
    ensures Run(f, t, rest)[id].version == t[id].version
  {
    if rest == [] {
    } else {
      var n := |rest| - 1;
      forall d | d in rest[..n] ensures d in rest { }
      TopStays(f, t, rest[..n], id);
      Lasts(f, t, rest[..n], id);
      assert rest[n] in rest;
      RunSnoc(f, t, rest);
      hide Run, Newer, Supersedes;
    }
  }

  lemma Index(ds: seq<Member>, x: Member) returns (i: nat)
    requires x in ds
    ensures i < |ds| && ds[i] == x && multiset(First(ds, i)) == multiset(ds)
  {
    i :| i < |ds| && ds[i] == x;
    FirstIsOrder(ds, i);
  }

  /** Deliver one counting record first: what lasts of it is in every outcome, when all orders agree. */
  lemma FirstLasts(f: Formation, s: Members, ds: seq<Member>, id: NodeId, x: Member)
    requires OrdersAgree(f, s, ds) && News(f, s, ds, id, x)
    ensures id in Step(f, s, x) && id in Run(f, s, ds) && Lasting(Step(f, s, x)[id], Run(f, s, ds)[id])
  {
    var i := Index(ds, x);
    var rest := ds[..i] + ds[i + 1..];
    assert Run(f, s, First(ds, i)) == Run(f, s, ds);
    RunFrom(f, s, x, rest);
    assert id in Step(f, s, x);
    Lasts(f, Step(f, s, x), rest, id);
  }

  lemma AgreedCertificate(f: Formation, s: Members, ds: seq<Member>)
    requires OrdersAgree(f, s, ds)
    ensures OneCertificate(f, s, ds)
  {
    forall id, x, y | id !in s && News(f, s, ds, id, x) && News(f, s, ds, id, y)
      ensures x.certificate == y.certificate {
      FirstLasts(f, s, ds, id, x);
      FirstLasts(f, s, ds, id, y);
      hide OrdersAgree, Run;
    }
  }

  lemma AgreedDeath(f: Formation, s: Members, ds: seq<Member>)
    requires OrdersAgree(f, s, ds)
    ensures OneDeath(f, s, ds)
  {
    forall id, x, y | Fatal(f, s, ds, id, x) && News(f, s, ds, id, y)
      ensures y.incarnation <= x.incarnation && (Fatal(f, s, ds, id, y) ==> y.incarnation == x.incarnation)
    {
      FirstLasts(f, s, ds, id, x);
      FirstLasts(f, s, ds, id, y);
      hide OrdersAgree, Run, Newer;
    }
  }

  lemma AgreedDescription(f: Formation, s: Members, ds: seq<Member>)
    requires OrdersAgree(f, s, ds) && OneCertificate(f, s, ds)
    ensures OneDescription(f, s, ds)
  {
    forall id, x, y | Topmost(f, s, ds, id, x) && Topmost(f, s, ds, id, y) && x.version == y.version
      ensures x.description == y.description
    {
      FirstIsTop(f, s, ds, id, x);
      FirstIsTop(f, s, ds, id, y);
      hide OrdersAgree, Run, Topmost;
    }
  }

  lemma FirstIsTop(f: Formation, s: Members, ds: seq<Member>, id: NodeId, x: Member)
    requires OrdersAgree(f, s, ds) && OneCertificate(f, s, ds) && Topmost(f, s, ds, id, x)
    ensures id in Run(f, s, ds) && Run(f, s, ds)[id].description == x.description
  {
    var i := Index(ds, x);
    var rest := ds[..i] + ds[i + 1..];
    assert Run(f, s, First(ds, i)) == Run(f, s, ds);
    RunFrom(f, s, x, rest);
    var t := Step(f, s, x);
    assert id in t && t[id].version == x.version && t[id].description == x.description
      && t[id].certificate == x.certificate;
    forall d | d in rest && Heard(f, d) && d.id == id && d.certificate == t[id].certificate
      ensures !Newer(d.version, t[id].version)
    {
      assert News(f, s, ds, id, d);
    }
    hide Topmost, OneCertificate, OrdersAgree;
    TopStays(f, t, rest, id);
  }

  lemma Capped(f: Formation, s: Members, ds: seq<Member>)
    requires |s| <= f.maxMembers
    ensures |Run(f, s, ds)| <= f.maxMembers
  {
    if ds == [] {
    } else {
      var n := |ds| - 1;
      Capped(f, s, ds[..n]);
      RunSnoc(f, s, ds);
      hide Run, Absorbed, Heard;
    }
  }

  lemma AgreedRoom(f: Formation, s: Members, ds: seq<Member>)
    requires OrdersAgree(f, s, ds)
    ensures Roomy(f, s, ds)
  {
    if !Roomy(f, s, ds) {
      KeysGrow(f, s, ds);
      Capped(f, s, ds);
      var t := Run(f, s, ds);
      var all := s.Keys + Newcomers(f, s, ds);
      assert |t| == |t.Keys|;
      assert t.Keys != all;
      var id :| id in all && id !in t.Keys;
      var x :| x in ds && Counts(f, s, x) && x.id !in s && x.id == id;
      FirstLasts(f, s, ds, id, x);
      assert false;
    }
  }

  /** Delivery order never matters exactly for compatible records. */
  lemma OrdersAgreeIff(f: Formation, s: Members, ds: seq<Member>)
    requires Keyed(s)
    ensures OrdersAgree(f, s, ds) <==> Compatible(f, s, ds)
  {
    if OrdersAgree(f, s, ds) {
      hide *;
      AgreedRoom(f, s, ds);
      AgreedCertificate(f, s, ds);
      AgreedDescription(f, s, ds);
      AgreedDeath(f, s, ds);
      AllCompatible(f, s, ds);
    } else if Compatible(f, s, ds) {
      forall p | multiset(p) == multiset(ds) ensures Run(f, s, p) == Run(f, s, ds) {
        forall x ensures x in p <==> x in ds { assert x in multiset(p) <==> x in multiset(ds); }
        RedeliveryChangesNothing(f, s, ds, p);
      }
    }
  }

  lemma AllCompatible(f: Formation, s: Members, ds: seq<Member>)
    requires Roomy(f, s, ds) && OneCertificate(f, s, ds) && OneDescription(f, s, ds) && OneDeath(f, s, ds)
    ensures Compatible(f, s, ds)
  {
  }

  /** A death and a later sign of life: the node is dead or alive according to which is heard first. */
  lemma DeathRacesRefutation(f: Formation, s: Members, held: Member)
    requires Heard(f, held) && s == map[held.id := held] && held.liveness.Suspected?
    requires f.valid(held.(liveness := Dead)) && f.valid(held.(liveness := Alive, incarnation := held.incarnation + 1))
    ensures var death, refutation := held.(liveness := Dead),
      held.(liveness := Alive, incarnation := held.incarnation + 1);
      && Run(f, s, [death, refutation]) == map[held.id := death]
      && Run(f, s, [refutation, death]) == map[held.id := refutation]
  {
    var death, refutation := held.(liveness := Dead), held.(liveness := Alive, incarnation := held.incarnation + 1);
    RunOfTwo(f, s, death, refutation);
    RunOfTwo(f, s, refutation, death);
  }

  lemma RunOfTwo(f: Formation, s: Members, x: Member, y: Member)
    ensures Run(f, s, [x, y]) == Step(f, Step(f, s, x), y)
  {
    RunSnoc(f, s, [x, y]);
    RunSnoc(f, s, [x]);
    assert [x, y][..1] == [x];
  }
}
