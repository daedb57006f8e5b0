/**
 A bounded UDP fault relay (UdpRelay in scripts/formation_udp_relay.py): one front socket, one backend
 socket per source. The lock makes each read-and-forward and each partition change one step; the methods
 may be called in any order. What a socket call does (data, would-block, refusal, fault) is an argument.
 */
module UdpRelay {
  import opened Aggregates

  const MAX_ROUTES := 8

  type Endpoint = nat

  datatype Port = Front | Backend(socket: nat)

  datatype Receipt = Datagram(source: Endpoint) | WouldBlock | Refused | Broken

  datatype Sending = Sent | NotNow | Failing

  datatype Opening = Ready | CannotOpen | CannotRegister

  datatype Event =
    | Switched(partitioned: bool)
    | Forwarded(at: Port, source: Endpoint, out: Port, address: Endpoint)
    | Dropped(at: Port)
    | Faulted(at: Port, taken: bool)

  function Forwards(log: seq<Event>): nat {
    if log == [] then 0 else Forwards(log[..|log| - 1]) + (if log[|log| - 1].Forwarded? then 1 else 0)
  }

  function Drops(log: seq<Event>): nat {
    if log == [] then 0 else Drops(log[..|log| - 1]) + (if log[|log| - 1].Dropped? then 1 else 0)
  }

  lemma CountsGrow(log: seq<Event>, e: Event)
    ensures Forwards(log + [e]) == Forwards(log) + (if e.Forwarded? then 1 else 0)
    ensures Drops(log + [e]) == Drops(log) + (if e.Dropped? then 1 else 0)
  {
  }

  ghost predicate ForwardedAt(log: seq<Event>, i: int) { 0 <= i < |log| && log[i].Forwarded? }

  ghost predicate DroppedAt(log: seq<Event>, i: int) { 0 <= i < |log| && log[i].Dropped? }

  /** The first total is the number of datagrams forwarded so far. */
  lemma {:induction false} ForwardsCount(log: seq<Event>)
    ensures Forwards(log) == |set i | 0 <= i < |log| && ForwardedAt(log, i)|
  {
    var forwarded := set i | 0 <= i < |log| && ForwardedAt(log, i);
    if log != [] {
      var n := |log| - 1;
      ForwardsCount(log[..n]);
      var before := set i | 0 <= i < n && ForwardedAt(log[..n], i);
      assert forwarded == if log[n].Forwarded? then before + {n} else before;
    } else {
      assert forwarded == {};
    }
  }

  /** The second total is the number of datagrams dropped so far. */
  lemma {:induction false} DropsCount(log: seq<Event>)
    ensures Drops(log) == |set i | 0 <= i < |log| && DroppedAt(log, i)|
  {
    var dropped := set i | 0 <= i < |log| && DroppedAt(log, i);
    if log != [] {
      var n := |log| - 1;
      DropsCount(log[..n]);
      var before := set i | 0 <= i < n && DroppedAt(log[..n], i);
      assert dropped == if log[n].Dropped? then before + {n} else before;
    } else {
      assert dropped == {};
    }
  }

  /** The relay was healed after its i-th event and before its j-th. */
  ghost predicate Healed(log: seq<Event>, i: int, j: int) {
    exists k :: 0 <= k < |log| && i < k < j && log[k] == Switched(false)
  }

  /** Nothing read after a partition is forwarded until it is healed. */
  ghost predicate Partitions(log: seq<Event>) {
    forall i, j :: 0 <= i < j < |log| && log[i] == Switched(true) && log[j].Forwarded? ==> Healed(log, i, j)
  }

  /** Every partition so far has been healed. */
  ghost predicate Flowing(log: seq<Event>) {
    forall i :: 0 <= i < |log| && log[i] == Switched(true) ==> Healed(log, i, |log|)
  }

  /** Each source's datagrams leave by its own backend, and that backend's replies return to it alone. */
  ghost predicate Routed(log: seq<Event>, routes: map<Endpoint, nat>, target: Endpoint) {
    forall e :: e in log && e.Forwarded? ==> RightWay(e, routes, target)
  }

  ghost predicate RightWay(e: Event, routes: map<Endpoint, nat>, target: Endpoint)
    requires e.Forwarded?
  {
    match e.at
    case Front => e.source in routes && e.out == Backend(routes[e.source]) && e.address == target
    case Backend(socket) => e.out == Front && e.address in routes && routes[e.address] == socket
  }

  ghost predicate Injective(routes: map<Endpoint, nat>) {
    forall a, b :: a in routes && b in routes && routes[a] == routes[b] ==> a == b
  }

  ghost predicate Below(routes: map<Endpoint, nat>, socket: nat) { forall s :: s in routes ==> routes[s] < socket }

  /** Every backend watched serves the source that opened it, and while running every route is watched. */
  ghost predicate Watched(registered: map<nat, Endpoint>, routes: map<Endpoint, nat>, nextSocket: nat, running: bool) {
    && Below(routes, nextSocket)
    && (forall b :: b in registered ==> registered[b] in routes && routes[registered[b]] == b)
    && (running ==> forall s :: s in routes ==> routes[s] in registered)
  }

  lemma WatchAnother(registered: map<nat, Endpoint>, routes: map<Endpoint, nat>, source: Endpoint, socket: nat)
    requires Watched(registered, routes, socket, true) && source !in routes
    ensures Below(routes, socket)
    ensures Watched(registered[socket := source], routes[source := socket], socket + 1, true)
    ensures Watched(registered, routes[source := socket], socket + 1, false)
  {
  }

  ghost predicate Extends(before: map<Endpoint, nat>, after: map<Endpoint, nat>) {
    forall s :: s in before ==> s in after && after[s] == before[s]
  }

  lemma HealedLater(log: seq<Event>, e: Event, i: int, j: int)
    requires 0 <= i < j <= |log|
    ensures Healed(log + [e], i, j) <==> Healed(log, i, j)
    ensures Healed(log + [e], i, |log| + 1) <==> Healed(log, i, |log|) || e == Switched(false)
  {
    var grown := log + [e];
    assert grown[|log|] == e;
    assert forall k :: 0 <= k < |log| ==> grown[k] == log[k];
    if k :| i < k < j && log[k] == Switched(false) { assert grown[k] == log[k]; }
    if k :| i < k < |log| && log[k] == Switched(false) { assert grown[k] == log[k]; }
  }

  lemma PartitionsGrow(log: seq<Event>, e: Event)
    requires Partitions(log) && (e.Forwarded? ==> Flowing(log))
    ensures Partitions(log + [e])
    ensures e == Switched(false) ==> Flowing(log + [e])
    ensures e == Switched(true) ==> !Flowing(log + [e])
    ensures !e.Switched? ==> (Flowing(log + [e]) <==> Flowing(log))
  {
    var grown := log + [e];
    assert forall k :: 0 <= k < |log| ==> grown[k] == log[k];
    assert grown[|log|] == e;
    forall i, j | 0 <= i < j < |grown| && grown[i] == Switched(true) && grown[j].Forwarded?
      ensures Healed(grown, i, j) {
      HealedLater(log, e, i, j);
    }
    forall i | 0 <= i < |log| ensures Healed(grown, i, |grown|) <==> Healed(log, i, |log|) || e == Switched(false) {
      HealedLater(log, e, i, |log|);
    }
    if !e.Switched? && Flowing(grown) {
      forall i | 0 <= i < |log| && log[i] == Switched(true) ensures Healed(log, i, |log|) { assert grown[i] == log[i]; }
    }
  }

  lemma RoutedGrows(log: seq<Event>, e: Event, before: map<Endpoint, nat>, after: map<Endpoint, nat>, target: Endpoint)
    requires Routed(log, before, target) && Extends(before, after) && (e.Forwarded? ==> RightWay(e, after, target))
    ensures Routed(log + [e], after, target)
  {
  }

  lemma RouteAdded(log: seq<Event>, routes: map<Endpoint, nat>, source: Endpoint, socket: nat, target: Endpoint)
    requires Injective(routes) && Routed(log, routes, target) && source !in routes && Below(routes, socket)
    ensures var after := routes[source := socket];
            Injective(after) && Routed(log, after, target) && Extends(routes, after) && |after| == |routes| + 1
  {
  }

  class UdpRelay {
    const target: Endpoint
    var routes: map<Endpoint, nat>
    var registered: map<nat, Endpoint>
    var nextSocket: nat
    var partitioned: bool
    var forwarded: nat
    var dropped: nat
    var running: bool
    var failed: bool
    ghost var log: seq<Event>

    ghost predicate Valid()
      reads this
    {
      && |routes| <= MAX_ROUTES && Injective(routes)
      && Watched(registered, routes, nextSocket, running)
      && (failed ==> !running)
      && forwarded == Forwards(log) && dropped == Drops(log)
      && Partitions(log) && (partitioned <==> !Flowing(log))
      && Routed(log, routes, target)
    }

    constructor (target: Endpoint)
      ensures Valid() && this.target == target && running && !partitioned && routes == map[] && log == []
    {
      this.target := target;
      routes, registered, nextSocket, partitioned, forwarded, dropped, running, failed, log := map[], map[], 0, false,
        0, 0, true, false, [];
    }

    /** Once this returns, nothing read later is forwarded until the relay is healed. */
    method Partition(enabled: bool) returns (ok: bool)
      requires Valid()
      modifies this`partitioned, this`log
      ensures Valid() && (ok <==> !failed)
      ensures ok ==> partitioned == enabled && log == old(log) + [Switched(enabled)]
      ensures !ok ==> partitioned == old(partitioned) && log == old(log)
    {
      if failed { return false; }
      PartitionsGrow(log, Switched(enabled));
      CountsGrow(log, Switched(enabled));
      RoutedGrows(log, Switched(enabled), routes, routes, target);
      partitioned, log := enabled, log + [Switched(enabled)];
      ok := true;
    }

    method Stats() returns (result: Option<(nat, nat, nat)>)
      requires Valid()
      ensures result.Some? <==> !failed
      ensures result.Some? ==> result.value == (|routes|, Forwards(log), Drops(log)) && result.value.0 <= MAX_ROUTES
    {
      if failed { return None; }
      result := Some((|routes|, forwarded, dropped));
    }

    /** The loop's own record of an unexpected exception, made after it has stopped. */
    method Fail()
      requires Valid() && !running
      modifies this`failed
      ensures Valid() && failed
    {
      failed := true;
    }

    /** Count and record one read. */
    method Note(ghost e: Event, sent: bool, lost: bool)
      requires Valid() && (sent <==> e.Forwarded?) && (lost <==> e.Dropped?)
      requires (e.Forwarded? ==> !partitioned && RightWay(e, routes, target)) && !e.Switched?
      modifies this`log, this`forwarded, this`dropped
      ensures Valid() && log == old(log) + [e]
      ensures forwarded == old(forwarded) + (if e.Forwarded? then 1 else 0)
      ensures dropped == old(dropped) + (if e.Dropped? then 1 else 0)
    {
      hide Partitions, Flowing, Routed, Injective, Forwards, Drops, Watched, RightWay, Extends;
      ExtendsItself(routes);
      PartitionsGrow(log, e);
      CountsGrow(log, e);
      RoutedGrows(log, e, routes, routes, target);
      if sent { forwarded := forwarded + 1; }
      if lost { dropped := dropped + 1; }
      log := log + [e];
    }

    /** A backend of its own for a source not seen before; a socket that cannot be watched stops the relay. */
    method OpenRoute(source: Endpoint, opening: Opening)
      requires Valid() && running && source !in routes && |routes| < MAX_ROUTES && !opening.CannotOpen?
      modifies this`routes, this`registered, this`nextSocket, this`running
      ensures Valid() && routes == old(routes)[source := old(nextSocket)] && running == opening.Ready?
      ensures Extends(old(routes), routes)
    {
      hide Partitions, Flowing, Routed, Injective, Forwards, Drops, Extends, Watched, Below;
      WatchAnother(registered, routes, source, nextSocket);
      RouteAdded(log, routes, source, nextSocket, target);
      routes, nextSocket := routes[source := nextSocket], nextSocket + 1;
      if opening.Ready? { registered := registered[nextSocket - 1 := source]; } else { running := false; }
    }

    /** One ready socket: at most one datagram is read, and it is forwarded, dropped or lost to a fault. */
    method Handle(at: Port, receipt: Receipt, opening: Opening, sending: Sending) returns (ghost event: Option<Event>)
      requires Valid() && running && (at.Backend? ==> at.socket in registered)
      modifies this
      ensures Valid() && Extends(old(routes), routes) && partitioned == old(partitioned) && failed == old(failed)
      ensures log == old(log) + (if event.Some? then [event.value] else [])
      ensures event.None? <==> receipt.WouldBlock?
      ensures receipt.Refused? || (receipt.Datagram? && partitioned) ==> event == Some(Dropped(at))
      ensures receipt.Broken? ==> event == Some(Faulted(at, false))
      ensures if receipt.Datagram? && !partitioned && at.Front? && receipt.source !in old(routes)
                 && |old(routes)| < 8 && !opening.CannotOpen?
              then routes.Keys == old(routes).Keys + {receipt.source} else routes == old(routes)
      ensures receipt.Datagram? && !partitioned && at.Front? ==>
        event == Some(if receipt.source !in old(routes) && |old(routes)| == 8 then Dropped(Front)
                      else if receipt.source !in old(routes) && !opening.Ready? then Faulted(Front, true)
                      else if sending.Sent? then Forwarded(Front, receipt.source, Backend(routes[receipt.source]),
                                                           target)
                      else if sending.NotNow? then Dropped(Front) else Faulted(Front, true))
      ensures receipt.Datagram? && !partitioned && at.Backend? ==>
        event == Some(if sending.Sent? then Forwarded(at, receipt.source, Front, old(registered)[at.socket])
                      else if sending.NotNow? then Dropped(at) else Faulted(at, true))
      ensures running <==> event.None? || !event.value.Faulted?
      ensures forwarded == old(forwarded) + (if event.Some? && event.value.Forwarded? then 1 else 0)
      ensures dropped == old(dropped) + (if event.Some? && event.value.Dropped? then 1 else 0)
    {
      hide Partitions, Flowing, Routed, Injective, Forwards, Drops, RightWay, Extends;
      ExtendsItself(routes);
      match receipt {
        case WouldBlock => return None;
        case Broken =>
          running := false;
          event := Some(Faulted(at, false));
          Note(event.value, false, false);
          return;
        case Refused =>
          event := Some(Dropped(at));
          Note(event.value, false, true);
          return;
        case Datagram(_) =>
      }
      if partitioned {
        event := Some(Dropped(at));
        Note(event.value, false, true);
        return;
      }
      hide Watched, Below;
      if at.Front? {
        event := FromFront(receipt.source, opening, sending);
      } else {
        event := FromBackend(at.socket, receipt.source, sending);
      }
    }

    method FromBackend(socket: nat, source: Endpoint, sending: Sending) returns (ghost event: Option<Event>)
      requires Valid() && running && !partitioned && socket in registered
      modifies this`log, this`forwarded, this`dropped, this`running
      ensures Valid() && event.Some? && log == old(log) + [event.value]
      ensures event.value == (if sending.Sent? then Forwarded(Backend(socket), source, Front, registered[socket])
                              else if sending.NotNow? then Dropped(Backend(socket)) else Faulted(Backend(socket), true))
      ensures running <==> !event.value.Faulted?
      ensures forwarded == old(forwarded) + (if event.value.Forwarded? then 1 else 0)
      ensures dropped == old(dropped) + (if event.value.Dropped? then 1 else 0)
    {
      hide Partitions, Flowing, Routed, Injective, Forwards, Drops;
      event := Some(Forwarded(Backend(socket), source, Front, registered[socket]));
      assert RightWay(event.value, routes, target);
      hide RightWay;
      event := Transmit(event.value, sending);
    }

    method Transmit(ghost intended: Event, sending: Sending) returns (ghost event: Option<Event>)
      requires Valid() && running && !partitioned && intended.Forwarded? && RightWay(intended, routes, target)
      modifies this`log, this`forwarded, this`dropped, this`running
      ensures Valid() && event.Some? && log == old(log) + [event.value]
      ensures event == Some(match sending
                            case Sent => intended
                            case NotNow => Dropped(intended.at)
                            case Failing => Faulted(intended.at, true))
      ensures running <==> !sending.Failing?
      ensures forwarded == old(forwarded) + (if sending.Sent? then 1 else 0)
      ensures dropped == old(dropped) + (if sending.NotNow? then 1 else 0)
    {
      hide Partitions, Flowing, Routed, Injective, Forwards, Drops, RightWay;
      match sending {
        case Sent => event := Some(intended);
        case NotNow => event := Some(Dropped(intended.at));
        case Failing =>
          event := Some(Faulted(intended.at, true));
          running := false;
      }
      Note(event.value, sending.Sent?, sending.NotNow?);
    }

    /** A first datagram opens a route, is dropped for want of room, or stops the relay. */
    method NewRoute(source: Endpoint, opening: Opening) returns (ghost event: Option<Event>, routed: bool)
      requires Valid() && running && !partitioned && source !in routes
      modifies this
      ensures Valid() && Extends(old(routes), routes) && partitioned == old(partitioned) && failed == old(failed)
      ensures routed <==> |old(routes)| < MAX_ROUTES && opening.Ready?
      ensures event == (if routed then None
                        else if |old(routes)| == MAX_ROUTES then Some(Dropped(Front)) else Some(Faulted(Front, true)))
      ensures log == old(log) + (if event.Some? then [event.value] else [])
      ensures running <==> event.None? || event.value.Dropped?
      ensures if |old(routes)| < MAX_ROUTES && !opening.CannotOpen?
              then source in routes && routes.Keys == old(routes).Keys + {source} else routes == old(routes)
      ensures forwarded == old(forwarded)
      ensures dropped == old(dropped) + (if event.Some? && event.value.Dropped? then 1 else 0)
    {
      hide Partitions, Flowing, Routed, Injective, Forwards, Drops, Extends, Watched, RightWay;
      ExtendsItself(routes);
      if |routes| >= MAX_ROUTES {
        event, routed := Some(Dropped(Front)), false;
        Note(event.value, false, true);
        return;
      }
      routed := opening.Ready?;
      if opening.CannotOpen? { Halt(); } else { OpenRoute(source, opening); }
      if !running {
        event := Some(Faulted(Front, true));
        Note(event.value, false, false);
      } else {
        event := None;
      }
    }

    method Halt()
      requires Valid() && running
      modifies this`running
      ensures Valid() && !running
    {
      running := false;
    }

    /** The route of a known source, or a new one while there is room for it. */
    method FromFront(source: Endpoint, opening: Opening, sending: Sending) returns (ghost event: Option<Event>)
      requires Valid() && running && !partitioned
      modifies this
      ensures Valid() && Extends(old(routes), routes) && partitioned == old(partitioned) && failed == old(failed)
      ensures event.Some? && log == old(log) + [event.value]
      ensures if source !in old(routes) && |old(routes)| < MAX_ROUTES && !opening.CannotOpen?
              then source in routes && routes.Keys == old(routes).Keys + {source} else routes == old(routes)
      ensures event.value ==
              (if source !in old(routes) && |old(routes)| == MAX_ROUTES then Dropped(Front)
               else if source !in old(routes) && !opening.Ready? then Faulted(Front, true)
               else if sending.Sent? then Forwarded(Front, source, Backend(routes[source]), target)
               else if sending.NotNow? then Dropped(Front) else Faulted(Front, true))
      ensures running <==> !event.value.Faulted?
      ensures forwarded == old(forwarded) + (if event.value.Forwarded? then 1 else 0)
      ensures dropped == old(dropped) + (if event.value.Dropped? then 1 else 0)
    {
      hide Partitions, Flowing, Routed, Injective, Forwards, Drops, Extends, Watched;
      ExtendsItself(routes);
      if source !in routes {
        var routed;
        event, routed := NewRoute(source, opening);
        if !routed { return; }
      }
      assert RightWay(Forwarded(Front, source, Backend(routes[source]), target), routes, target);
      hide RightWay;
      event := Transmit(Forwarded(Front, source, Backend(routes[source]), target), sending);
    }
  }

  lemma ExtendsItself(routes: map<Endpoint, nat>)
    ensures Extends(routes, routes)
  {
  }

  /** A reply is delivered only to the one source whose datagrams opened that backend. */
  lemma RepliesReachTheirSource(relay: UdpRelay, out: Event, back: Event)
    requires relay.Valid() && out in relay.log && back in relay.log
    requires out.Forwarded? && out.at.Front? && back.Forwarded? && back.at == out.out
    ensures back.address == out.source && back.out == Front
  {
    assert RightWay(out, relay.routes, relay.target) && RightWay(back, relay.routes, relay.target);
    hide Partitions, Flowing, Forwards, Drops;
  }
}
