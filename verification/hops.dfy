/** How far a query travels (search/flood.c): hop bounds over every run of the network. */
module Hops {
  import opened Addresses
  import opened OrderedMaps
  import opened SeenCaches
  import opened Neighbors
  import opened Flood

  /** The same nodes, each still listing every neighbour it listed, in the same place. */
  ghost predicate Grown(s: Net, t: Net) {
    && s.nodes.Keys == t.nodes.Keys
    && forall a :: a in s.nodes ==> Keys(s.nodes[a].neighbors) <= Keys(t.nodes[a].neighbors)
  }

  lemma HandleGrows(n: Node, q: Query, now: int)
    ensures Keys(n.neighbors) <= Keys(Handle(n, q, now).node.neighbors)
  {
    AddedKeepsAll(n.neighbors, q.origin, now);
  }

  lemma StepGrows(s: Net, a: Action)
    ensures Grown(s, Step(s, a))
  {
    hide Handle, Registered, Added, Keys, Packets, Targets, Without;
    match a
    case Originate(_, _, _, _) =>
    case Deliver(k, now) =>
      if k < |s.flight| && s.flight[k].dest in s.nodes {
        HandleGrows(s.nodes[s.flight[k].dest], s.flight[k].query, now);
      }
    case Lose(_) =>
    case Learn(at, peer, now) =>
      if at in s.nodes {
        AddedKeepsAll(s.nodes[at].neighbors, peer, now);
      }
  }

  lemma GrownTransitive(s: Net, t: Net, u: Net)
    requires Grown(s, t) && Grown(t, u)
    ensures Grown(s, u)
  {
    hide Keys;
  }

  lemma {:induction false} RunGrows(s: Net, actions: seq<Action>)
    ensures Grown(s, Run(s, actions))
  {
    if actions != [] {
      hide Step, Grown;
      RunGrows(s, actions[..|actions| - 1]);
      StepGrows(Run(s, actions[..|actions| - 1]), actions[|actions| - 1]);
      GrownTransitive(s, Run(s, actions[..|actions| - 1]), Run(s, actions));
    } else {
      assert Run(s, actions) == s;
    }
  }

  /** Node a lists b as a neighbour. */
  ghost predicate Link(s: Net, a: Addr, b: Addr) {
    a in s.nodes && b in Keys(s.nodes[a].neighbors)
  }

  /** A forwarding path: each node lists the next one, and the last lists the destination. */
  ghost predicate Linked(s: Net, path: seq<Addr>, dest: Addr) {
    && path != []
    && Link(s, path[|path| - 1], dest)
    && forall i :: 0 <= i < |path| - 1 ==> Link(s, path[i], path[i + 1])
  }

  lemma LinkGrown(s: Net, t: Net, a: Addr, b: Addr)
    requires Grown(s, t) && Link(s, a, b)
    ensures Link(t, a, b)
  {
    var before, after := Keys(s.nodes[a].neighbors), Keys(t.nodes[a].neighbors);
    var i :| 0 <= i < |before| && before[i] == b;
    assert after[i] == b;
  }

  lemma LinkedGrown(s: Net, t: Net, path: seq<Addr>, dest: Addr)
    requires Grown(s, t) && Linked(s, path, dest)
    ensures Linked(t, path, dest)
  {
    hide Link, Grown;
    LinkGrown(s, t, path[|path| - 1], dest);
    forall i | 0 <= i < |path| - 1
      ensures Link(t, path[i], path[i + 1])
    {
      LinkGrown(s, t, path[i], path[i + 1]);
    }
  }

  lemma LinkedExtend(s: Net, path: seq<Addr>, mid: Addr, dest: Addr)
    requires Linked(s, path, mid) && Link(s, mid, dest)
    ensures Linked(s, path + [mid], dest)
  {
    hide Link;
    var longer := path + [mid];
    forall i | 0 <= i < |longer| - 1
      ensures Link(s, longer[i], longer[i + 1])
    {
      assert i < |path| - 1 ==> longer[i] == path[i] && longer[i + 1] == path[i + 1];
    }
  }

  /** A packet in flight: the hops made and the time to live left add up to the clamped initial time to live, along
      a forwarding path from the node that started the query. */
  ghost predicate PacketOk(s: Net, p: Packet) {
    && Linked(s, p.path, p.dest)
    && p.query.origin == p.path[0]
    && p.query.ttl + |p.path| == p.budget <= 6
    && Event(p.path[0], p.query.id, [], p.budget) in s.log
  }

  /** An accepted query came along a forwarding path no longer than the clamped time to live it was started with. */
  ghost predicate EventOk(s: Net, e: Event) {
    e.path != [] ==>
      && Linked(s, e.path, e.at)
      && |e.path| <= e.budget <= 6
      && Event(e.path[0], e.id, [], e.budget) in s.log
  }

  ghost predicate HopsOk(s: Net) {
    && (forall p :: p in s.flight ==> PacketOk(s, p))
    && (forall e :: e in s.log ==> EventOk(s, e))
  }

  lemma PacketOkGrown(s: Net, t: Net, p: Packet)
    requires PacketOk(s, p) && Grown(s, t) && (forall e :: e in s.log ==> e in t.log)
    ensures PacketOk(t, p)
  {
    LinkedGrown(s, t, p.path, p.dest);
  }

  lemma EventOkGrown(s: Net, t: Net, e: Event)
    requires EventOk(s, e) && Grown(s, t) && (forall e :: e in s.log ==> e in t.log)
    ensures EventOk(t, e)
  {
    if e.path != [] {
      LinkedGrown(s, t, e.path, e.at);
    }
  }

  /** What a step can add: the packets and events that were not there before. */
  ghost predicate OnlyNew(s: Net, t: Net, packets: seq<Packet>, events: seq<Event>) {
    && (forall p :: p in t.flight ==> p in s.flight || p in packets)
    && t.log == s.log + events
  }

  lemma HopsOkStep(s: Net, t: Net, packets: seq<Packet>, events: seq<Event>)
    requires HopsOk(s) && Grown(s, t) && OnlyNew(s, t, packets, events)
    requires (forall p :: p in packets ==> PacketOk(t, p)) && (forall e :: e in events ==> EventOk(t, e))
    ensures HopsOk(t)
  {
    hide PacketOk, EventOk, Grown;
    forall p | p in t.flight
      ensures PacketOk(t, p)
    {
      if p !in packets {
        PacketOkGrown(s, t, p);
      }
    }
    forall e | e in t.log
      ensures EventOk(t, e)
    {
      if e !in events {
        EventOkGrown(s, t, e);
      }
    }
  }

  lemma WithoutMembers(flight: seq<Packet>, k: nat)
    requires k < |flight|
    ensures forall p :: p in Without(flight, k) ==> p in flight
    ensures forall p :: p in flight ==> p in Without(flight, k) || p == flight[k]
  {
    forall p | p in flight && p != flight[k]
      ensures p in Without(flight, k)
    {
      var i :| 0 <= i < |flight| && flight[i] == p;
      if i < k {
        assert flight[..k][i] == p;
      } else {
        assert flight[k + 1..][i - k - 1] == p;
      }
    }
  }

  /** The copies a node sends out, and the event it logs, for a query it starts. */
  function OriginCopies(s: Net, at: Addr, id: string, ttl: nat): seq<Packet>
    requires at in s.nodes
  {
    if ttl == 0 then []
    else Packets(Targets(s.nodes[at].neighbors, NO_SENDER), PassedOn(Query(id, at, ttl)), [at], Clamp(ttl))
  }

  lemma OriginateEffects(s: Net, at: Addr, id: string, ttl: nat, now: int)
    requires at in s.nodes
    ensures var t := OriginateStep(s, at, id, ttl, now);
            t.flight == s.flight + OriginCopies(s, at, id, ttl)
            && OnlyNew(s, t, OriginCopies(s, at, id, ttl), [Event(at, id, [], Clamp(ttl))])
            && at in t.nodes && t.nodes[at].neighbors == s.nodes[at].neighbors
  {
  }

  lemma OriginateHops(s: Net, at: Addr, id: string, ttl: nat, now: int)
    requires HopsOk(s) && at in s.nodes
    ensures HopsOk(OriginateStep(s, at, id, ttl, now))
  {
    hide HopsOk, Grown, OriginateStep, Targets;
    var t := OriginateStep(s, at, id, ttl, now);
    var copies := OriginCopies(s, at, id, ttl);
    OriginateEffects(s, at, id, ttl, now);
    StepGrows(s, Originate(at, id, ttl, now));
    assert t == Step(s, Originate(at, id, ttl, now));
    assert Event(at, id, [], Clamp(ttl)) in t.log;
    forall p | p in copies
      ensures PacketOk(t, p)
    {
      assert p.dest in Targets(s.nodes[at].neighbors, NO_SENDER);
    }
    HopsOkStep(s, t, copies, [Event(at, id, [], Clamp(ttl))]);
  }

  /** The copies sent, and the events logged, for a delivered query. */
  function DeliveryCopies(s: Net, p: Packet, now: int): seq<Packet>
    requires p.dest in s.nodes
  {
    var h := Handle(s.nodes[p.dest], p.query, now);
    if h.targets == [] || p.query.ttl == 0 then []
    else Packets(h.targets, PassedOn(p.query), p.path + [p.dest], p.budget)
  }

  function DeliveryEvents(s: Net, p: Packet, now: int): seq<Event>
    requires p.dest in s.nodes
  {
    if Handle(s.nodes[p.dest], p.query, now).accepted then [Event(p.dest, p.query.id, p.path, p.budget)] else []
  }

  lemma DeliveryEffects(s: Net, k: nat, now: int)
    requires k < |s.flight| && s.flight[k].dest in s.nodes
    ensures var p, t := s.flight[k], DeliverStep(s, k, now);
            t.flight == Without(s.flight, k) + DeliveryCopies(s, p, now)
            && OnlyNew(s, t, DeliveryCopies(s, p, now), DeliveryEvents(s, p, now))
            && t.nodes == s.nodes[p.dest := Handle(s.nodes[p.dest], p.query, now).node]
  {
    hide Handle;
    WithoutMembers(s.flight, k);
    assert s.log + [] == s.log;
  }

  lemma HandleTargets(n: Node, q: Query, now: int)
    ensures var h := Handle(n, q, now);
            && (forall a :: a in h.targets ==> a in Keys(h.node.neighbors))
            && (!h.accepted ==> h.targets == [])
            && (h.accepted && q.ttl > 0 ==> h.targets == Targets(h.node.neighbors, NO_SENDER))
  {
    hide Registered, IsNew, Added;
  }

  /** A copy passed on has made one hop more and has one less to go. */
  lemma CopyHops(s: Net, t: Net, p: Packet, now: int, c: Packet)
    requires p.dest in s.nodes && p.dest in t.nodes && PacketOk(t, p) && c in DeliveryCopies(s, p, now)
    requires t.nodes[p.dest] == Handle(s.nodes[p.dest], p.query, now).node
    ensures PacketOk(t, c)
  {
    hide Linked, Handle, Keys;
    HandleTargets(s.nodes[p.dest], p.query, now);
    assert c.dest in Handle(s.nodes[p.dest], p.query, now).targets;
    LinkedExtend(t, p.path, p.dest, c.dest);
    PathNotEmpty(t, p.path, p.dest);
    assert c.path == p.path + [p.dest] && c.path[0] == p.path[0];
  }

  lemma PathNotEmpty(s: Net, path: seq<Addr>, dest: Addr)
    requires Linked(s, path, dest)
    ensures path != []
  {
  }

  lemma DeliveryHops(s: Net, k: nat, now: int)
    requires HopsOk(s) && k < |s.flight| && s.flight[k].dest in s.nodes
    ensures HopsOk(DeliverStep(s, k, now))
  {
    var p, t := s.flight[k], DeliverStep(s, k, now);
    assert PacketOk(s, p);
    assert t == Step(s, Deliver(k, now));
    hide HopsOk, Grown, DeliverStep, Step, Linked, Handle, DeliveryCopies;
    DeliveryEffects(s, k, now);
    StepGrows(s, Deliver(k, now));
    PacketOkGrown(s, t, p);
    var copies, events := DeliveryCopies(s, p, now), DeliveryEvents(s, p, now);
    forall c | c in copies
      ensures PacketOk(t, c)
    {
      CopyHops(s, t, p, now, c);
    }
    forall e | e in events
      ensures EventOk(t, e)
    {
    }
    HopsOkStep(s, t, copies, events);
  }

  lemma StepHops(s: Net, a: Action)
    requires HopsOk(s)
    ensures HopsOk(Step(s, a))
  {
    var t := Step(s, a);
    hide HopsOk, Grown, DeliverStep, OriginateStep, Without, Added;
    StepGrows(s, a);
    match a
    case Originate(at, id, ttl, now) =>
      if at in s.nodes {
        OriginateHops(s, at, id, ttl, now);
      }
    case Deliver(k, now) =>
      if k < |s.flight| {
        if s.flight[k].dest in s.nodes {
          DeliveryHops(s, k, now);
        } else {
          UndeliveredStep(s, k, now);
          DroppedHops(s, k, t);
        }
      }
    case Lose(k) =>
      if k < |s.flight| {
        DroppedHops(s, k, t);
      }
    case Learn(at, peer, now) =>
      assert s.log + [] == s.log;
      HopsOkStep(s, t, [], []);
  }

  lemma UndeliveredStep(s: Net, k: nat, now: int)
    requires k < |s.flight| && s.flight[k].dest !in s.nodes
    ensures DeliverStep(s, k, now) == s.(flight := Without(s.flight, k))
  {
  }

  lemma DroppedHops(s: Net, k: nat, t: Net)
    requires HopsOk(s) && k < |s.flight| && t == s.(flight := Without(s.flight, k))
    ensures HopsOk(t)
  {
    WithoutMembers(s.flight, k);
    assert s.log + [] == s.log;
    assert Grown(s, t);
    HopsOkStep(s, t, [], []);
  }

  /** From a network at rest, in every reachable state and whatever the schedule, losses, caches and new neighbours:
      a packet has made exactly as many hops as its time to live has lost, and a node accepts a query only along a
      forwarding path from its origin of at most min(ttl, 6) hops. */
  lemma {:induction false} HopBound(s: Net, actions: seq<Action>)
    requires s.flight == [] && s.log == []
    ensures HopsOk(Run(s, actions))
  {
    if actions != [] {
      hide Step, HopsOk;
      HopBound(s, actions[..|actions| - 1]);
      StepHops(Run(s, actions[..|actions| - 1]), actions[|actions| - 1]);
    }
  }
}
