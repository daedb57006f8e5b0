/**
 Version-ordered registers: tombstones, blocklist entries and the membership policy are each kept by key, and a newer
 version replaces what is held (crates/orishu-membership/src/merge.rs:325-465). When does the order of delivery matter?
 */
module Registers {
  import opened Aggregates
  import opened Versions

  /** `content` stands for all a register says besides its key and version. */
  datatype Entry<K, V> = Entry(key: K, version: Version, content: V)

  type Held<K, V> = map<K, Entry<K, V>>

  /** How many keys may be held, and which entries are well formed. */
  datatype Rule<!K, !V> = Rule(limit: nat, valid: Entry<K, V> -> bool)

  datatype Diagnostic =
    Malformed | TombstoneFenced | SelfIgnored | LimitExceeded | CertificateMismatch | VersionConflict | StaleDelta

  datatype Verdict = Accepted | Replayed | Refused(reason: Diagnostic)

  predicate Takes<K, V>(r: Rule<K, V>, s: Held<K, V>, e: Entry<K, V>) {
    r.valid(e) && if e.key in s then Newer(e.version, s[e.key].version) else |s| < r.limit
  }

  function Put<K, V>(r: Rule<K, V>, s: Held<K, V>, e: Entry<K, V>): Held<K, V> {
    if Takes(r, s, e) then s[e.key := e] else s
  }

  /** An entry is taken exactly when the rule says so, and every refusal names its cause. */
  method Judge<K(==), V(==)>(r: Rule<K, V>, held: Held<K, V>, e: Entry<K, V>) returns (verdict: Verdict)
    ensures verdict == Accepted <==> Takes(r, held, e)
    ensures verdict == Replayed <==> r.valid(e) && e.key in held && held[e.key] == e
    ensures verdict == Refused(VersionConflict) <==>
      r.valid(e) && e.key in held && held[e.key] != e && held[e.key].version == e.version
    ensures verdict == Refused(StaleDelta) <==>
      r.valid(e) && e.key in held && Newer(held[e.key].version, e.version)
    ensures verdict == Refused(LimitExceeded) <==> r.valid(e) && e.key !in held && |held| >= r.limit
    ensures verdict == Refused(Malformed) <==> !r.valid(e)
  {
    if !r.valid(e) { return Refused(Malformed); }
    if e.key in held {
      var current := held[e.key];
      if current == e { return Replayed; }
      if current.version == e.version { return Refused(VersionConflict); }
      if Newer(current.version, e.version) { return Refused(StaleDelta); }
    } else if |held| >= r.limit { return Refused(LimitExceeded); }
    verdict := Accepted;
  }

  // ---- Deliveries: other news passes a register by ----

  ghost function Run<K, V>(r: Rule<K, V>, s: Held<K, V>, es: seq<Option<Entry<K, V>>>): Held<K, V> {
    if es == [] then s else Step(r, Run(r, s, es[..|es| - 1]), es[|es| - 1])
  }

  lemma RunMore<K, V>(r: Rule<K, V>, s: Held<K, V>, ps: seq<Option<Entry<K, V>>>, d: Option<Entry<K, V>>)
    ensures Run(r, s, ps + [d]) == Step(r, Run(r, s, ps), d)
  {
    assert (ps + [d])[..|ps|] == ps;
  }

  function Step<K, V>(r: Rule<K, V>, s: Held<K, V>, e: Option<Entry<K, V>>): Held<K, V> {
    if e.Some? then Put(r, s, e.value) else s
  }

  ghost predicate Counts<K, V>(r: Rule<K, V>, s: Held<K, V>, es: seq<Option<Entry<K, V>>>, key: K, e: Entry<K, V>) {
    Some(e) in es && Takes(r, s, e) && e.key == key
  }

  ghost function NewKeys<K, V>(r: Rule<K, V>, s: Held<K, V>, es: seq<Option<Entry<K, V>>>): set<K> {
    set e | e in es && e.Some? && Takes(r, s, e.value) && e.value.key !in s :: e.value.key
  }

  /** Every new key finds room, or none does. */
  ghost predicate Roomy<K, V>(r: Rule<K, V>, s: Held<K, V>, es: seq<Option<Entry<K, V>>>) {
    |s| >= r.limit || |s.Keys + NewKeys(r, s, es)| <= r.limit
  }

  ghost predicate Topmost<K(!new), V(!new)>(r: Rule<K, V>, s: Held<K, V>, es: seq<Option<Entry<K, V>>>, key: K,
                                            e: Entry<K, V>) {
    Counts(r, s, es, key, e) && forall z :: Counts(r, s, es, key, z) ==> !Newer(z.version, e.version)
  }

  /** No two entries share a key's highest version. */
  ghost predicate OneTop<K(!new), V(!new)>(r: Rule<K, V>, s: Held<K, V>, es: seq<Option<Entry<K, V>>>) {
    forall key, x, y :: Topmost(r, s, es, key, x) && Topmost(r, s, es, key, y) && x.version == y.version ==> x == y
  }

  ghost predicate Compatible<K(!new), V(!new)>(r: Rule<K, V>, s: Held<K, V>, es: seq<Option<Entry<K, V>>>) {
    Roomy(r, s, es) && OneTop(r, s, es)
  }

  // ---- What is held after a delivery ----

  lemma RunSnoc<K, V>(r: Rule<K, V>, s: Held<K, V>, es: seq<Option<Entry<K, V>>>)
    requires es != []
    ensures es == es[..|es| - 1] + [es[|es| - 1]]
    ensures Run(r, s, es) == Step(r, Run(r, s, es[..|es| - 1]), es[|es| - 1])
  {
  }

  ghost function At<K, V>(s: Held<K, V>, key: K): Option<Entry<K, V>> { if key in s then Some(s[key]) else None }

  /** The newest entry that counted, or what was held before. */
  ghost predicate Settled<K(!new), V(!new)>(r: Rule<K, V>, s: Held<K, V>, es: seq<Option<Entry<K, V>>>, key: K,
                                            now: Option<Entry<K, V>>) {
    || (now.Some? && Topmost(r, s, es, key, now.value))
    || (now == At(s, key) && forall e :: !Counts(r, s, es, key, e))
  }

  ghost predicate AllSettled<K(!new), V(!new)>(r: Rule<K, V>, s: Held<K, V>, es: seq<Option<Entry<K, V>>>,
                                               t: Held<K, V>) {
    && s.Keys <= t.Keys <= s.Keys + NewKeys(r, s, es)
    && forall key :: Settled(r, s, es, key, At(t, key))
  }

  lemma CountsStep<K, V>(r: Rule<K, V>, s: Held<K, V>, ps: seq<Option<Entry<K, V>>>, d: Option<Entry<K, V>>, key: K,
                         e: Entry<K, V>)
    ensures Counts(r, s, ps + [d], key, e) <==>
      Counts(r, s, ps, key, e) || (d == Some(e) && Takes(r, s, e) && e.key == key)
  {
  }

  lemma NewKeysStep<K, V>(r: Rule<K, V>, s: Held<K, V>, ps: seq<Option<Entry<K, V>>>, d: Option<Entry<K, V>>)
    ensures NewKeys(r, s, ps) <= NewKeys(r, s, ps + [d])
    ensures d.Some? && Takes(r, s, d.value) && d.value.key !in s ==> d.value.key in NewKeys(r, s, ps + [d])
    ensures Roomy(r, s, ps + [d]) ==> Roomy(r, s, ps)
  {
    assert d in ps + [d];
    hide Takes;
    Subset(s.Keys + NewKeys(r, s, ps), s.Keys + NewKeys(r, s, ps + [d]));
  }

  /** An entry that does not count changes nothing; one that does is taken unless something newer came. */
  lemma Arrives<K(!new), V(!new)>(r: Rule<K, V>, s: Held<K, V>, ps: seq<Option<Entry<K, V>>>, e: Entry<K, V>,
                                  t: Held<K, V>)
    requires AllSettled(r, s, ps, t) && Roomy(r, s, ps + [Some(e)])
    ensures !Takes(r, s, e) ==> !Takes(r, t, e)
    ensures Takes(r, s, e) ==> (Takes(r, t, e) <==> (e.key in t ==> Newer(e.version, t[e.key].version)))
  {
    Subset(s.Keys, t.Keys);
    assert |s| == |s.Keys| && |t| == |t.Keys|;
    NewKeysStep(r, s, ps, Some(e));
    assert Settled(r, s, ps, e.key, At(t, e.key));
    if e.key in t {
      hide Roomy, NewKeys;
    } else if Takes(r, s, e) {
      assert e.key !in s && t.Keys <= s.Keys + NewKeys(r, s, ps + [Some(e)]);
      hide NewKeys, Settled, AllSettled;
      Fewer(t.Keys, s.Keys + NewKeys(r, s, ps + [Some(e)]), e.key);
    }
  }

  lemma SettledStep<K(!new), V(!new)>(r: Rule<K, V>, s: Held<K, V>, ps: seq<Option<Entry<K, V>>>, e: Entry<K, V>,
                                      t: Held<K, V>, key: K)
    requires AllSettled(r, s, ps, t) && Roomy(r, s, ps + [Some(e)])
    ensures Settled(r, s, ps + [Some(e)], key, At(Put(r, t, e), key))
  {
    assert Settled(r, s, ps, key, At(t, key));
    Arrives(r, s, ps, e, t);
    forall z { CountsStep(r, s, ps, Some(e), key, z); }
    hide Roomy, AllSettled, Counts, Settled;
    if key != e.key || !Takes(r, s, e) {
      SameCounts(r, s, ps, ps + [Some(e)], key, At(t, key));
    } else if Takes(r, t, e) {
      hide Takes;
      Outranks(r, s, ps, e, At(t, key));
    } else {
      hide Takes;
      Outranked(r, s, ps, e, t[key]);
    }
  }

  lemma SameCounts<K(!new), V(!new)>(r: Rule<K, V>, s: Held<K, V>, ps: seq<Option<Entry<K, V>>>,
                                     qs: seq<Option<Entry<K, V>>>, key: K, now: Option<Entry<K, V>>)
    requires Settled(r, s, ps, key, now) && forall z :: Counts(r, s, qs, key, z) <==> Counts(r, s, ps, key, z)
    ensures Settled(r, s, qs, key, now)
  {
    hide Counts;
  }

  lemma Outranks<K(!new), V(!new)>(r: Rule<K, V>, s: Held<K, V>, ps: seq<Option<Entry<K, V>>>, e: Entry<K, V>,
                                   was: Option<Entry<K, V>>)
    requires Settled(r, s, ps, e.key, was) && (was.Some? ==> Newer(e.version, was.value.version))
    requires forall z :: Counts(r, s, ps + [Some(e)], e.key, z) <==> Counts(r, s, ps, e.key, z) || z == e
    ensures Settled(r, s, ps + [Some(e)], e.key, Some(e))
  {
    hide Counts;
    assert Counts(r, s, ps + [Some(e)], e.key, e);
    assert Topmost(r, s, ps + [Some(e)], e.key, e);
  }

  lemma Outranked<K(!new), V(!new)>(r: Rule<K, V>, s: Held<K, V>, ps: seq<Option<Entry<K, V>>>, e: Entry<K, V>,
                                    held: Entry<K, V>)
    requires Settled(r, s, ps, e.key, Some(held)) && Takes(r, s, e) && !Newer(e.version, held.version)
    requires forall z :: Counts(r, s, ps + [Some(e)], e.key, z) <==> Counts(r, s, ps, e.key, z) || z == e
    ensures Settled(r, s, ps + [Some(e)], e.key, Some(held))
  {
    hide Counts;
    assert Topmost(r, s, ps, e.key, held);
  }

  /** A delivery settles every key on its newest entry, whatever the order. */
  lemma DeliverySettles<K(!new), V(!new)>(r: Rule<K, V>, s: Held<K, V>, es: seq<Option<Entry<K, V>>>)
    requires Roomy(r, s, es)
    ensures AllSettled(r, s, es, Run(r, s, es))
  {
    if es == [] {
    } else {
      var n := |es| - 1;
      RunSnoc(r, s, es);
      NewKeysStep(r, s, es[..n], es[n]);
      DeliverySettles(r, s, es[..n]);
      hide Run, NewKeys, Roomy, AllSettled;
      AllSettledStep(r, s, es[..n], es[n], Run(r, s, es[..n]));
    }
  }

  lemma AllSettledStep<K(!new), V(!new)>(r: Rule<K, V>, s: Held<K, V>, ps: seq<Option<Entry<K, V>>>,
                                         d: Option<Entry<K, V>>, t: Held<K, V>)
    requires AllSettled(r, s, ps, t) && Roomy(r, s, ps + [d])
    ensures AllSettled(r, s, ps + [d], Step(r, t, d))
  {
    NewKeysStep(r, s, ps, d);
    hide Roomy, NewKeys, Counts, Settled, Takes;
    if d.Some? {
      forall key ensures Settled(r, s, ps + [d], key, At(Step(r, t, d), key)) {
        SettledStep(r, s, ps, d.value, t, key);
      }
      Arrives(r, s, ps, d.value, t);
      KeysStep(r, s, ps, d.value, t);
    } else {
      forall key ensures Settled(r, s, ps + [d], key, At(t, key)) {
        forall z { CountsStep(r, s, ps, d, key, z); }
        SameCounts(r, s, ps, ps + [d], key, At(t, key));
      }
    }
  }

  lemma KeysStep<K(!new), V(!new)>(r: Rule<K, V>, s: Held<K, V>, ps: seq<Option<Entry<K, V>>>, e: Entry<K, V>,
                                   t: Held<K, V>)
    requires AllSettled(r, s, ps, t) && (Takes(r, t, e) ==> Takes(r, s, e))
    ensures s.Keys <= Put(r, t, e).Keys <= s.Keys + NewKeys(r, s, ps + [Some(e)])
  {
    NewKeysStep(r, s, ps, Some(e));
    hide NewKeys, Settled;
  }

  /** Redelivered and reordered entries converge. */
  lemma RedeliveryChangesNothing<K(!new), V(!new)>(r: Rule<K, V>, s: Held<K, V>, p: seq<Option<Entry<K, V>>>,
                                                   q: seq<Option<Entry<K, V>>>)
    requires Compatible(r, s, p) && forall e :: e in p <==> e in q
    ensures Run(r, s, p) == Run(r, s, q)
  {
    assert NewKeys(r, s, p) == NewKeys(r, s, q);
    DeliverySettles(r, s, p);
    DeliverySettles(r, s, q);
    var a, b := Run(r, s, p), Run(r, s, q);
    hide Run, NewKeys, Roomy, AllSettled, OneTop, Takes;
    forall key ensures At(a, key) == At(b, key) {
      forall e ensures Counts(r, s, p, key, e) <==> Counts(r, s, q, key, e) { }
      SettledAt(r, s, p, a, key);
      SettledAt(r, s, q, b, key);
      hide Counts, Settled;
      SameSettled(r, s, p, q, key, At(a, key), At(b, key));
    }
    hide Compatible, Counts;
    SameHeld(a, b);
  }

  lemma SettledAt<K(!new), V(!new)>(r: Rule<K, V>, s: Held<K, V>, es: seq<Option<Entry<K, V>>>, t: Held<K, V>, key: K)
    requires AllSettled(r, s, es, t)
    ensures Settled(r, s, es, key, At(t, key))
  {
  }

  lemma SameHeld<K(!new), V>(a: Held<K, V>, b: Held<K, V>)
    requires forall key :: At(a, key) == At(b, key)
    ensures a == b
  {
    forall key ensures key in a <==> key in b { assert At(a, key) == At(b, key); }
    forall key | key in a ensures a[key] == b[key] { assert At(a, key) == At(b, key); }
  }

  lemma SameSettled<K(!new), V(!new)>(r: Rule<K, V>, s: Held<K, V>, p: seq<Option<Entry<K, V>>>,
                                      q: seq<Option<Entry<K, V>>>, key: K, a: Option<Entry<K, V>>,
                                      b: Option<Entry<K, V>>)
    requires OneTop(r, s, p) && forall e :: Counts(r, s, p, key, e) <==> Counts(r, s, q, key, e)
    requires Settled(r, s, p, key, a) && Settled(r, s, q, key, b)
    ensures a == b
  {
    hide Counts;
    if a.Some? && b.Some? && Topmost(r, s, p, key, a.value) && Topmost(r, s, q, key, b.value) {
      assert Topmost(r, s, p, key, b.value);
      assert !Newer(a.value.version, b.value.version) && !Newer(b.value.version, a.value.version);
    }
  }

  // ---- Orders that agree ----

  ghost predicate FirstsAgree<K, V>(r: Rule<K, V>, s: Held<K, V>, es: seq<Option<Entry<K, V>>>) {
    forall i: nat :: i < |es| ==> Run(r, s, First(es, i)) == Run(r, s, es)
  }

  lemma RunFrom<K, V>(r: Rule<K, V>, s: Held<K, V>, d: Option<Entry<K, V>>, rest: seq<Option<Entry<K, V>>>)
    ensures Run(r, s, [d] + rest) == Run(r, Step(r, s, d), rest)
  {
    var es := [d] + rest;
    if rest == [] {
      assert es[..0] == [];
    } else {
      var n := |rest| - 1;
      assert es[..|es| - 1] == [d] + rest[..n];
      RunFrom(r, s, d, rest[..n]);
      hide Step;
    }
  }

  /** A key once held stays; an entry nothing outranks stays. */
  lemma Stays<K, V>(r: Rule<K, V>, t: Held<K, V>, rest: seq<Option<Entry<K, V>>>, key: K)
    requires key in t
    ensures key in Run(r, t, rest)
    ensures (forall e :: Some(e) in rest && r.valid(e) && e.key == key ==> !Newer(e.version, t[key].version)) ==>
      Run(r, t, rest)[key] == t[key]
  {
    if rest == [] {
    } else {
      var n := |rest| - 1;
      forall e | e in rest[..n] ensures e in rest { }
      assert rest[n] in rest;
      Stays(r, t, rest[..n], key);
      RunSnoc(r, t, rest);
      hide Run, Newer;
    }
  }

  lemma Capped<K, V>(r: Rule<K, V>, s: Held<K, V>, es: seq<Option<Entry<K, V>>>)
    ensures s.Keys <= Run(r, s, es).Keys
    ensures |s| <= r.limit ==> |Run(r, s, es)| <= r.limit
  {
    if es == [] {
    } else {
      Capped(r, s, es[..|es| - 1]);
      RunSnoc(r, s, es);
      hide Run, Newer;
    }
  }

  lemma FirstTaken<K(!new), V(!new)>(r: Rule<K, V>, s: Held<K, V>, es: seq<Option<Entry<K, V>>>, key: K, e: Entry<K, V>)
    requires FirstsAgree(r, s, es) && Counts(r, s, es, key, e)
    ensures key in Run(r, s, es)
    ensures Topmost(r, s, es, key, e) ==> Run(r, s, es)[key] == e
  {
    var i: nat :| i < |es| && es[i] == Some(e);
    var rest := es[..i] + es[i + 1..];
    var t := Put(r, s, e);
    assert Run(r, s, First(es, i)) == Run(r, s, es);
    RunFrom(r, s, Some(e), rest);
    assert key in t && t[key] == e;
    if Topmost(r, s, es, key, e) {
      forall z | Some(z) in rest && r.valid(z) && z.key == key ensures !Newer(z.version, e.version) {
        assert Some(z) in es && (Newer(z.version, e.version) ==> Takes(r, s, z));
      }
    }
    hide FirstsAgree, Topmost, Counts, Newer, Put;
    Stays(r, t, rest, key);
  }

  lemma AgreedRoom<K(!new), V(!new)>(r: Rule<K, V>, s: Held<K, V>, es: seq<Option<Entry<K, V>>>)
    requires FirstsAgree(r, s, es)
    ensures Roomy(r, s, es)
  {
    var t := Run(r, s, es);
    Capped(r, s, es);
    if |s| < r.limit {
      forall key | key in NewKeys(r, s, es) ensures key in t {
        var e :| e in es && e.Some? && Takes(r, s, e.value) && e.value.key == key;
        FirstTaken(r, s, es, key, e.value);
      }
      hide FirstsAgree, NewKeys, Run;
      Subset(s.Keys + NewKeys(r, s, es), t.Keys);
      assert |t| == |t.Keys|;
    }
  }

  /** If it never matters which entry comes first, the entries are compatible. */
  lemma AgreedIsCompatible<K(!new), V(!new)>(r: Rule<K, V>, s: Held<K, V>, es: seq<Option<Entry<K, V>>>)
    requires FirstsAgree(r, s, es)
    ensures Compatible(r, s, es)
  {
    AgreedRoom(r, s, es);
    forall key, x, y | Topmost(r, s, es, key, x) && Topmost(r, s, es, key, y) && x.version == y.version ensures x == y {
      FirstTaken(r, s, es, key, x);
      FirstTaken(r, s, es, key, y);
    }
    hide FirstsAgree, Roomy, Topmost;
  }
}
