/** Whom a node gets to know from the queries it accepts (search/flood.c). */
module Learning {
  import opened Addresses
  import opened OrderedMaps
  import opened SeenCaches
  import opened Neighbors
  import opened Flood
  import opened Hops

  predicate Usable(a: Addr) {
    a.ip != "" && a.port != 0
  }

  /** A query that is accepted and names a usable origin puts the origin, in normal form, on the node's list, unless that is
      full; any other query leaves the list alone. */
  lemma {:induction false} OriginLearnt(n: Node, q: Query, now: int)
    ensures var h := Handle(n, q, now);
      && Keys(n.neighbors) <= Keys(h.node.neighbors)
      && (if h.accepted && q.origin.ip != "" && q.origin.port != 0 then
            (NormalizeAddr(q.origin) in Keys(h.node.neighbors) <==> NormalizeAddr(q.origin) in Keys(n.neighbors) || |n.neighbors| < 16)
          else h.node.neighbors == n.neighbors)
  {
    hide Registered, IsNew, Added, NormalizeAddr;
    AddedKeepsAll(n.neighbors, q.origin, now);
  }

  /** The query goes to the origin itself too, once it is on the list: nothing tells the node not to. */
  lemma {:induction false} OriginIsTarget(n: Node, q: Query, now: int)
    requires Handle(n, q, now).accepted && q.ttl > 0 && Usable(q.origin)
    requires NormalizeAddr(q.origin) in Keys(n.neighbors) || |n.neighbors| < 16
    ensures NormalizeAddr(q.origin) != NO_SENDER ==> NormalizeAddr(q.origin) in Handle(n, q, now).targets
  {
    OriginLearnt(n, q, now);
    HandleTargets(n, q, now);
    hide Handle, NormalizeAddr;
  }

  /** A node that accepted a query lists where it came from, or has no room. */
  ghost predicate Knows(s: Net, e: Event) {
    e.path != [] && Usable(e.path[0]) ==>
      e.at in s.nodes && (NormalizeAddr(e.path[0]) in Keys(s.nodes[e.at].neighbors) || |s.nodes[e.at].neighbors| >= 16)
  }

  ghost predicate AllKnow(s: Net) {
    forall e :: e in s.log ==> Knows(s, e)
  }

  lemma {:induction false} KnowsGrown(s: Net, t: Net, e: Event)
    requires Knows(s, e) && Grown(s, t)
    ensures Knows(t, e)
  {
    if e.path != [] && Usable(e.path[0]) {
      var before, after := Keys(s.nodes[e.at].neighbors), Keys(t.nodes[e.at].neighbors);
      assert before <= after;
      if NormalizeAddr(e.path[0]) in before {
        var i :| 0 <= i < |before| && before[i] == NormalizeAddr(e.path[0]);
        assert after[i] == before[i];
      }
    }
  }

  lemma {:induction false} KnowsStep(s: Net, t: Net, events: seq<Event>)
    requires AllKnow(s) && Grown(s, t) && t.log == s.log + events && forall e :: e in events ==> Knows(t, e)
    ensures AllKnow(t)
  {
    hide Knows, Grown;
    forall e | e in t.log
      ensures Knows(t, e)
    {
      if e !in events {
        KnowsGrown(s, t, e);
      }
    }
  }

  lemma {:induction false} DeliveryTeaches(s: Net, k: nat, now: int)
    requires AllKnow(s) && HopsOk(s) && k < |s.flight| && s.flight[k].dest in s.nodes
    ensures AllKnow(DeliverStep(s, k, now))
  {
    var p, t := s.flight[k], DeliverStep(s, k, now);
    assert PacketOk(s, p);
    assert t == Step(s, Deliver(k, now));
    hide DeliverStep, Step, AllKnow, HopsOk, Handle, DeliveryCopies, NormalizeAddr, Keys;
    DeliveryEffects(s, k, now);
    StepGrows(s, Deliver(k, now));
    OriginLearnt(s.nodes[p.dest], p.query, now);
    LongerList(s.nodes[p.dest].neighbors, t.nodes[p.dest].neighbors);
    hide Grown;
    KnowsStep(s, t, DeliveryEvents(s, p, now));
  }

  lemma LongerList(a: seq<Peer>, b: seq<Peer>)
    ensures Keys(a) <= Keys(b) ==> |a| <= |b|
  {
  }

  lemma {:induction false} StepTeaches(s: Net, a: Action)
    requires AllKnow(s) && HopsOk(s)
    ensures AllKnow(Step(s, a))
  {
    var t := Step(s, a);
    StepGrows(s, a);
    hide AllKnow, HopsOk, Grown, DeliverStep, OriginateStep, Without, Added;
    assert s.log + [] == s.log;
    match a
    case Originate(at, id, ttl, now) =>
      if at in s.nodes {
        OriginateEffects(s, at, id, ttl, now);
        KnowsStep(s, t, [Event(at, id, [], Clamp(ttl))]);
      }
    case Deliver(k, now) =>
      if k < |s.flight| {
        if s.flight[k].dest in s.nodes {
          DeliveryTeaches(s, k, now);
        } else {
          UndeliveredStep(s, k, now);
          KnowsStep(s, t, []);
        }
      }
    case Lose(k) =>
      KnowsStep(s, t, []);
    case Learn(at, peer, now) =>
      KnowsStep(s, t, []);
  }

  /** In every run from a network at rest, at every moment, each node that has accepted a query lists its origin or has a full
      list, whatever was lost, delayed or learnt besides. */
  lemma {:induction false} AccepterKnowsOrigin(s: Net, actions: seq<Action>)
    requires s.flight == [] && s.log == []
    ensures AllKnow(Run(s, actions))
  {
    if actions != [] {
      var before, last := actions[..|actions| - 1], actions[|actions| - 1];
      hide Step, HopsOk, AllKnow;
      AccepterKnowsOrigin(s, before);
      HopBound(s, before);
      StepTeaches(Run(s, before), last);
    }
  }
}
