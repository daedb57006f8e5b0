/**
 What merging one delta does, on the numbers it carries (crates/orishu-membership/src/merge.rs:69-99, :165-465;
 crates/orishu-identity/src/version.rs:27-37).
 */
module MergeMeaning {
  import opened MemberMerge
  import opened Versions
  import Registers

  /** The first of epoch, counter and actor in which two versions differ is greater. */
  ghost predicate Later(v: Version, w: Version) {
    var a, b := [v.epoch, v.counter, v.actor], [w.epoch, w.counter, w.actor];
    exists k :: 0 <= k < 3 && a[..k] == b[..k] && a[k] > b[k]
  }

  lemma LaterIs(v: Version, w: Version)
    ensures Newer(v, w) <==> Later(v, w)
  {
    var a, b := [v.epoch, v.counter, v.actor], [w.epoch, w.counter, w.actor];
    assert a[..0] == b[..0];
    assert a[..1] == b[..1] <==> v.epoch == w.epoch by { assert a[..1] == [v.epoch] && b[..1] == [w.epoch]; }
    assert a[..2] == b[..2] <==> v.epoch == w.epoch && v.counter == w.counter by {
      assert a[..2] == [v.epoch, v.counter] && b[..2] == [w.epoch, w.counter];
    }
    if v.epoch > w.epoch {
      assert a[0] > b[0];
    } else if v.epoch == w.epoch && v.counter > w.counter {
      assert a[1] > b[1];
    } else if v.epoch == w.epoch && v.counter == w.counter && v.actor > w.actor {
      assert a[2] > b[2];
    }
  }

  /** Two versions are the same or one is later, never both. */
  lemma LaterIsTotal(v: Version, w: Version)
    ensures v == w || Later(v, w) || Later(w, v)
    ensures !(Later(v, w) && Later(w, v)) && !Later(v, v)
  {
    LaterIs(v, w);
    LaterIs(w, v);
    LaterIs(v, v);
    hide Later;
  }

  /**
   A death ends a life of no later incarnation, a suspicion one of no later or of an earlier; nothing ends a death.
   */
  ghost predicate Overrides(incoming: Member, held: Member) {
    && !held.liveness.Dead?
    && (incoming.incarnation > held.incarnation
        || (incoming.incarnation == held.incarnation
            && (incoming.liveness.Dead? || (incoming.liveness.Suspected? && held.liveness.Alive?))))
  }

  // ---- Member records ----

  /** The record then held: description and liveness each by its own order, the certificate never. */
  ghost predicate Merged(now: Member, d: Member, held: Member) {
    && now.id == held.id && now.certificate == held.certificate
    && (Later(d.version, held.version) ==> now.version == d.version && now.description == d.description)
    && (!Later(d.version, held.version) ==> now.version == held.version && now.description == held.description)
    && (Overrides(d, held) ==> now.liveness == d.liveness && now.incarnation == d.incarnation)
    && (!Overrides(d, held) ==> now.liveness == held.liveness && now.incarnation == held.incarnation)
  }

  lemma AbsorbedMeans(d: Member, held: Member)
    requires d.id == held.id && d.certificate == held.certificate
    ensures Merged(Absorbed(held, d), d, held)
  {
    LaterIs(d.version, held.version);
    hide Later, Newer;
  }

  /** What the members are after one record: changed only at its node, and only if this node listens to it. */
  lemma RecordMeans(rules: Rules, r: Replica, d: Member)
    requires MemberMerge.Keyed(r.members)
    ensures var after := Apply(rules, r, Said(d));
      var listens := rules.valid(d) && d.id != rules.localId
                     && !(d.id in r.tombstones && !r.tombstones[d.id].content.cleared);
      && after == r.(members := after.members) && after.members - {d.id} == r.members - {d.id}
      && (!listens ==> after == r)
      && (listens && d.id !in r.members && |r.members| < rules.maxMembers ==> after.members == r.members[d.id := d])
      && (listens && d.id !in r.members && |r.members| >= rules.maxMembers ==> after == r)
      && (listens && d.id in r.members && d.certificate != r.members[d.id].certificate ==> after == r)
      && (listens && d.id in r.members && d.certificate == r.members[d.id].certificate ==>
            d.id in after.members && Merged(after.members[d.id], d, r.members[d.id]))
  {
    if d.id in r.members && d.certificate == r.members[d.id].certificate { AbsorbedMeans(d, r.members[d.id]); }
    hide Absorbed, Merged;
    if d.id in r.members && d.certificate != r.members[d.id].certificate { Foreign(r.members, d); }
    assert d.id in Fenced(r.tombstones) <==> d.id in r.tombstones && !r.tombstones[d.id].content.cleared;
    hide Fenced;
    assert Apply(rules, r, Said(d)).members - {d.id} == r.members - {d.id};
  }

  lemma Foreign(s: Members, d: Member)
    requires d.id in s && d.certificate != s[d.id].certificate
    ensures s[d.id := Absorbed(s[d.id], d)] == s
  {
  }

  // ---- Registers ----

  /** A valid entry later than the one held, or for a new key with room, is kept; any other is not. */
  lemma EntryMeans<K, V>(rule: Registers.Rule<K, V>, held: Registers.Held<K, V>, e: Registers.Entry<K, V>)
    ensures var after := Registers.Put(rule, held, e);
      && (!rule.valid(e) ==> after == held)
      && (e.key in held && rule.valid(e) && Later(e.version, held[e.key].version) ==> after == held[e.key := e])
      && (e.key in held && !Later(e.version, held[e.key].version) ==> after == held)
      && (e.key !in held && rule.valid(e) && |held| < rule.limit ==> after == held[e.key := e])
      && (e.key !in held && |held| >= rule.limit ==> after == held)
  {
    if e.key in held { LaterIs(e.version, held[e.key].version); }
    hide Later, Newer;
  }

  /** A tombstone that is kept also takes its member away; one that is not changes nothing. */
  lemma TombstoneMeans(rules: Rules, r: Replica, t: Registers.Entry<NodeId, Removal>)
    ensures var after := Apply(rules, r, Removed(t));
      var kept := rules.tombstones.valid(t)
                  && if t.key in r.tombstones then Later(t.version, r.tombstones[t.key].version)
                     else |r.tombstones| < rules.tombstones.limit;
      && (kept ==> after == r.(tombstones := r.tombstones[t.key := t], members := r.members - {t.key}))
      && (!kept ==> after == r)
  {
    if t.key in r.tombstones { LaterIs(t.version, r.tombstones[t.key].version); }
    hide Later, Newer;
  }

  /** Blocklist entries and the policy change nothing else; the policy always has room. */
  lemma OthersMean(rules: Rules, r: Replica, e: Registers.Entry<string, nat>, p: Registers.Entry<PolicyKey, nat>)
    ensures Apply(rules, r, Listed(e)) == r.(blocklist := Registers.Put(rules.blocklist, r.blocklist, e))
    ensures var after := Apply(rules, r, Governed(p));
      && after == r.(policy := after.policy)
      && (p.key in r.policy && !Later(p.version, r.policy[p.key].version) ==> after == r)
      && (p.key in r.policy && Later(p.version, r.policy[p.key].version) ==> after.policy == r.policy[p.key := p])
      && (r.policy == map[] ==> after.policy == map[p.key := p])
  {
    EntryMeans(ONE_POLICY, r.policy, p);
    hide Later, Newer, Registers.Takes;
    assert r.policy == map[] ==> r.policy[p.key := p] == map[p.key := p];
  }
}
