/**
 Merging gossip (crates/orishu-membership/src/merge.rs): a member's description is ordered by version and its liveness
 by the failure detector's rules, so one delta may be adopted in part, and a tombstone removes the member it names.
 */
module MemberMerge {
  import opened Aggregates
  import Registers
  import opened Versions

  datatype Liveness = Alive | Suspected | Dead

  /** `description` stands for every field ordered by version besides the identity and the pinned certificate. */
  datatype Member = Member(id: NodeId, certificate: nat, description: nat, version: Version, liveness: Liveness,
                           incarnation: nat)

  type Members = map<NodeId, Member>

  /** What merging a member record reads and never changes. */
  datatype Formation = Formation(localId: NodeId, incarnation: nat, tombstoned: set<NodeId>, maxMembers: nat,
                                 valid: Member -> bool)

  datatype Removal = Removal(cleared: bool, detail: nat)

  type Tombstones = Registers.Held<NodeId, Removal>

  /** A cleared tombstone is kept but fences no longer. */
  function Fenced(ts: Tombstones): set<NodeId> { set id | id in ts && !ts[id].content.cleared }

  type Blocklist = Registers.Held<string, nat>

  datatype PolicyKey = MembershipPolicy

  type Policy = Registers.Held<PolicyKey, nat>

  datatype Delta =
    | Said(member: Member)
    | Removed(tombstone: Registers.Entry<NodeId, Removal>)
    | Listed(entry: Registers.Entry<string, nat>)
    | Governed(policy: Registers.Entry<PolicyKey, nat>)

  datatype Replica = Replica(members: Members, tombstones: Tombstones, blocklist: Blocklist, policy: Policy)

  /** This node's identity and limits. */
  datatype Rules = Rules(localId: NodeId, incarnation: nat, maxMembers: nat, valid: Member -> bool,
                         tombstones: Registers.Rule<NodeId, Removal>, blocklist: Registers.Rule<string, nat>)

  const ONE_POLICY: Registers.Rule<PolicyKey, nat> := Registers.Rule.Rule(1, _ => true)

  function Under(rules: Rules, ts: Tombstones): Formation {
    Formation(rules.localId, rules.incarnation, Fenced(ts), rules.maxMembers, rules.valid)
  }

  /** What one delta makes of all that is held. */
  function Apply(rules: Rules, r: Replica, delta: Delta): Replica {
    match delta
    case Said(d) => r.(members := Step(Under(rules, r.tombstones), r.members, d))
    case Removed(t) =>
      if !Registers.Takes(rules.tombstones, r.tombstones, t) then r
      else r.(tombstones := r.tombstones[t.key := t], members := r.members - {t.key})
    case Listed(e) => r.(blocklist := Registers.Put(rules.blocklist, r.blocklist, e))
    case Governed(e) => r.(policy := Registers.Put(ONE_POLICY, r.policy, e))
  }

  datatype Outcome =
    | Adopted(body: Delta, conflict: bool)
    | Idempotent
    | Rejected(reason: Registers.Diagnostic)
    | SelfChallenged(incarnation: nat)
    | SelfRemoved

  function OutcomeOf(verdict: Registers.Verdict, body: Delta): Outcome {
    match verdict
    case Accepted => Adopted(body, false)
    case Replayed => Idempotent
    case Refused(reason) => Rejected(reason)
  }

  predicate Supersedes(incoming: Liveness, i: nat, current: Liveness, c: nat) {
    match (current, incoming)
    case (Dead, _) => false
    case (_, Dead) => i >= c
    case (Alive, Suspected) => i >= c
    case _ => i > c
  }

  /** Records this node listens to; the others never change what it holds. */
  predicate Heard(f: Formation, d: Member) { f.valid(d) && d.id !in f.tombstoned && d.id != f.localId }

  /** The held record after a delta about it. */
  function Absorbed(held: Member, d: Member): Member {
    if d.certificate != held.certificate then held else
      var described := if Newer(d.version, held.version)
        then d.(liveness := held.liveness, incarnation := held.incarnation) else held;
      if Supersedes(d.liveness, d.incarnation, held.liveness, held.incarnation)
      then described.(liveness := d.liveness, incarnation := d.incarnation) else described
  }

  function Step(f: Formation, s: Members, d: Member): Members {
    if !Heard(f, d) then s
    else if d.id in s then s[d.id := Absorbed(s[d.id], d)]
    else if |s| >= f.maxMembers then s
    else s[d.id := d]
  }

  ghost function Run(f: Formation, s: Members, ds: seq<Member>): Members {
    if ds == [] then s else Step(f, Run(f, s, ds[..|ds| - 1]), ds[|ds| - 1])
  }

  ghost predicate Keyed(s: Members) { forall id :: id in s ==> s[id].id == id }

  class Membership {
    const rules: Rules
    var members: Members
    var tombstones: Tombstones
    var blocklist: Blocklist
    var policy: Policy
    var suspicions: set<NodeId>

    ghost predicate Valid()
      reads this
    {
      Keyed(members)
    }

    ghost function Held(): Replica
      reads this
    {
      Replica(members, tombstones, blocklist, policy)
    }

    function Formation(): Formation
      reads this`tombstones
    {
      Under(rules, tombstones)
    }

    /** Two records of one version that describe their node differently. */
    ghost predicate Disputed(incoming: Member)
      reads this
    {
      && Heard(Formation(), incoming) && incoming.id in members
      && incoming.certificate == members[incoming.id].certificate
      && incoming.version == members[incoming.id].version
      && incoming.description != members[incoming.id].description
    }

    method MergeDelta(delta: Delta) returns (outcome: Outcome)
      requires Valid()
      modifies this
      ensures Valid() && Held() == Apply(rules, old(Held()), delta)
      ensures outcome.Adopted? || outcome.SelfRemoved? <==> Held() != old(Held())
    {
      match delta
      case Said(d) => outcome := MergeMember(d);
      case Removed(t) => outcome := MergeTombstone(t);
      case Listed(e) => outcome := MergeBlocklist(e);
      case Governed(e) => outcome := MergePolicy(e);
    }

    /** An adoption is exactly a change, re-gossips exactly what is now held, and a dispute is always reported. */
    method MergeMember(incoming: Member) returns (outcome: Outcome)
      requires Valid()
      modifies this`members, this`suspicions
      ensures Valid() && members == Step(Formation(), old(members), incoming)
      ensures outcome.Adopted? <==> members != old(members)
      ensures outcome.Adopted? ==> incoming.id in members && outcome.body == Said(members[incoming.id])
      ensures (outcome.Adopted? && outcome.conflict) || outcome == Rejected(Registers.VersionConflict) <==>
        old(Disputed(incoming))
      ensures outcome == Idempotent <==>
        Heard(Formation(), incoming) && incoming.id in old(members) && old(members)[incoming.id] == incoming
      ensures outcome.SelfChallenged? <==>
        && rules.valid(incoming) && incoming.id !in Formation().tombstoned && incoming.id == rules.localId
        && incoming.liveness != Alive && incoming.incarnation >= rules.incarnation
      ensures outcome.SelfChallenged? ==> outcome.incarnation == incoming.incarnation
      ensures outcome == Rejected(Registers.Malformed) <==> !rules.valid(incoming)
      ensures outcome == Rejected(Registers.TombstoneFenced) <==>
        rules.valid(incoming) && incoming.id in Formation().tombstoned
      ensures outcome == Rejected(Registers.SelfIgnored) <==>
        && rules.valid(incoming) && incoming.id !in Formation().tombstoned && incoming.id == rules.localId
        && !outcome.SelfChallenged?
      ensures outcome == Rejected(Registers.LimitExceeded) <==>
        Heard(Formation(), incoming) && incoming.id !in old(members) && |old(members)| >= rules.maxMembers
      ensures outcome == Rejected(Registers.CertificateMismatch) <==>
        && Heard(Formation(), incoming) && incoming.id in old(members)
        && incoming.certificate != old(members)[incoming.id].certificate
      ensures !outcome.SelfRemoved?
      ensures suspicions == if outcome.Adopted? && incoming.id in old(members)
        && members[incoming.id].liveness != Suspected
          && (members[incoming.id].liveness, members[incoming.id].incarnation)
               != (old(members)[incoming.id].liveness, old(members)[incoming.id].incarnation)
        then old(suspicions) - {incoming.id} else old(suspicions)
    {
      if !rules.valid(incoming) { return Rejected(Registers.Malformed); }
      if incoming.id in tombstones && !tombstones[incoming.id].content.cleared {
        return Rejected(Registers.TombstoneFenced);
      }
      if incoming.id == rules.localId {
        return if incoming.liveness != Alive && incoming.incarnation >= rules.incarnation
          then SelfChallenged(incoming.incarnation) else Rejected(Registers.SelfIgnored);
      }
      if incoming.id !in members {
        if |members| >= rules.maxMembers { return Rejected(Registers.LimitExceeded); }
        members := members[incoming.id := incoming];
        return Adopted(Said(incoming), false);
      }
      var current := members[incoming.id];
      if incoming.certificate != current.certificate { return Rejected(Registers.CertificateMismatch); }
      if incoming == current { return Idempotent; }
      var adoptDescription := Newer(incoming.version, current.version);
      var livenessWins := Supersedes(incoming.liveness, incoming.incarnation, current.liveness, current.incarnation);
      var conflict := incoming.version == current.version && incoming.description != current.description;
      if !adoptDescription && !livenessWins {
        return Rejected(if conflict then Registers.VersionConflict else Registers.StaleDelta);
      }
      var held := current;
      if adoptDescription { held := incoming.(liveness := current.liveness, incarnation := current.incarnation); }
      if livenessWins { held := held.(liveness := incoming.liveness, incarnation := incoming.incarnation); }
      members := members[incoming.id := held];
      if livenessWins && held.liveness != Suspected { suspicions := suspicions - {incoming.id}; }
      outcome := Adopted(Said(held), conflict);
    }

    /** An adopted tombstone, cleared or not, removes its member and any suspicion of it. */
    method MergeTombstone(incoming: Registers.Entry<NodeId, Removal>) returns (outcome: Outcome)
      requires Valid()
      modifies this`tombstones, this`members, this`suspicions
      ensures Valid() && Held() == Apply(rules, old(Held()), Removed(incoming))
      ensures outcome.Adopted? || outcome.SelfRemoved? <==> tombstones != old(tombstones)
      ensures outcome.SelfRemoved? <==> tombstones != old(tombstones) && incoming.key == rules.localId
      ensures outcome.Adopted? ==> outcome == Adopted(Removed(incoming), false)
      ensures tombstones != old(tombstones) ==> incoming.key !in members && incoming.key !in suspicions
      ensures suspicions == if tombstones == old(tombstones) then old(suspicions) else old(suspicions) - {incoming.key}
      ensures outcome == Rejected(Registers.VersionConflict) <==>
        && rules.tombstones.valid(incoming) && incoming.key in tombstones && tombstones[incoming.key] != incoming
        && tombstones[incoming.key].version == incoming.version
      ensures outcome == Rejected(Registers.Malformed) <==> !rules.tombstones.valid(incoming)
      ensures outcome == Rejected(Registers.LimitExceeded) <==>
        && rules.tombstones.valid(incoming) && incoming.key !in tombstones
        && |tombstones| >= rules.tombstones.limit
      ensures outcome == Idempotent <==>
        && rules.tombstones.valid(incoming) && incoming.key in old(tombstones)
        && old(tombstones)[incoming.key] == incoming
    {
      var verdict := Registers.Judge(rules.tombstones, tombstones, incoming);
      if verdict == Registers.Accepted {
        tombstones := tombstones[incoming.key := incoming];
        members := members - {incoming.key};
        suspicions := suspicions - {incoming.key};
        if incoming.key == rules.localId { return SelfRemoved; }
      }
      outcome := OutcomeOf(verdict, Removed(incoming));
    }

    method MergeBlocklist(incoming: Registers.Entry<string, nat>) returns (outcome: Outcome)
      modifies this`blocklist
      ensures Held() == Apply(rules, old(Held()), Listed(incoming))
      ensures outcome.Adopted? <==> blocklist != old(blocklist)
      ensures outcome.Adopted? ==> outcome == Adopted(Listed(incoming), false)
      ensures outcome == Idempotent <==>
        rules.blocklist.valid(incoming) && incoming.key in old(blocklist) && old(blocklist)[incoming.key] == incoming
      ensures outcome == Rejected(Registers.VersionConflict) <==>
        && rules.blocklist.valid(incoming) && incoming.key in old(blocklist) && old(blocklist)[incoming.key] != incoming
        && old(blocklist)[incoming.key].version == incoming.version
      ensures outcome == Rejected(Registers.StaleDelta) <==>
        rules.blocklist.valid(incoming) && incoming.key in old(blocklist)
          && Newer(old(blocklist)[incoming.key].version, incoming.version)
      ensures outcome == Rejected(Registers.LimitExceeded) <==>
        && rules.blocklist.valid(incoming) && incoming.key !in old(blocklist)
        && |old(blocklist)| >= rules.blocklist.limit
      ensures outcome == Rejected(Registers.Malformed) <==> !rules.blocklist.valid(incoming)
      ensures !outcome.SelfRemoved?
    {
      var verdict := Registers.Judge(rules.blocklist, blocklist, incoming);
      if verdict == Registers.Accepted { blocklist := blocklist[incoming.key := incoming]; }
      outcome := OutcomeOf(verdict, Listed(incoming));
    }

    method MergePolicy(incoming: Registers.Entry<PolicyKey, nat>) returns (outcome: Outcome)
      modifies this`policy
      ensures Held() == Apply(rules, old(Held()), Governed(incoming))
      ensures outcome.Adopted? <==> policy != old(policy)
      ensures outcome.Adopted? ==> outcome == Adopted(Governed(incoming), false)
      ensures outcome == Idempotent <==> incoming.key in old(policy) && old(policy)[incoming.key] == incoming
      ensures outcome == Rejected(Registers.VersionConflict) <==>
        && incoming.key in old(policy) && old(policy)[incoming.key] != incoming
        && old(policy)[incoming.key].version == incoming.version
      ensures outcome == Rejected(Registers.StaleDelta) <==>
        incoming.key in old(policy) && Newer(old(policy)[incoming.key].version, incoming.version)
      ensures !outcome.SelfRemoved?
    {
      var verdict := Registers.Judge(ONE_POLICY, policy, incoming);
      if verdict == Registers.Accepted { policy := policy[incoming.key := incoming]; }
      outcome := OutcomeOf(verdict, Governed(incoming));
    }
  }
}
