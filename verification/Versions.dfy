/** The versions that order gossiped records (crates/orishu-identity/src/version.rs:27-37). */
module Versions {
  type NodeId = nat

  datatype Version = Version(epoch: nat, counter: nat, actor: NodeId)

  predicate Newer(v: Version, w: Version) {
    if v.epoch != w.epoch then v.epoch > w.epoch
    else if v.counter != w.counter then v.counter > w.counter
    else v.actor > w.actor
  }
}
