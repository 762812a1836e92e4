/** The runs of one query in a network that has seen none before (search/flood.c): any of them can be brought to rest. */
module SingleQuery {
  import opened Addresses
  import opened OrderedMaps
  import opened SeenCaches
  import opened Neighbors
  import opened Flood
  import opened Hops
  import opened Dedup
  import opened Coverage

  /** Nothing has been asked yet, and every list is within its bound. */
  ghost predicate Fresh(s: Net) {
    && s.flight == [] && s.log == [] && NO_SENDER !in s.nodes && ListsBounded(s)
    && forall v :: v in s.nodes ==> s.nodes[v].seen == []
  }

  function Mark(id: string): seq<Seen> {
    [Seen(Key(id), QUERY_EXPIRY_SEC)]
  }

  /** What a run of one query, at time 0, leaves: tables that hold it or nothing, lists that gained its origin at most, and
      only its copies in flight; it was started once. */
  ghost predicate Alone(s0: Net, s: Net, at: Addr, id: string) {
    && s.nodes.Keys == s0.nodes.Keys && ListsBounded(s)
    && (forall v :: v in s.nodes ==> s.nodes[v].seen == [] || s.nodes[v].seen == Mark(id))
    && (forall v :: v in s.nodes ==> Gained(s0, s, v, at))
    && (forall p :: p in s.flight ==> p.query.id == id && p.query.origin == at && p.path != [])
    && s.log != [] && s.log[0].at == at && forall e :: e in s.log && e.path == [] ==> e == s.log[0]
  }

  ghost predicate Gained(s0: Net, s: Net, v: Addr, at: Addr)
    requires v in s.nodes && s.nodes.Keys == s0.nodes.Keys
  {
    forall b :: b in Keys(s.nodes[v].neighbors) ==> b in Keys(s0.nodes[v].neighbors) || b == at
  }

  lemma MarkChecks(id: string)
    ensures IsNew([], id, 0) && Registered([], id, 0) == Mark(id) && Room([], 0)
    ensures !IsNew(Mark(id), id, 0) && Registered(Mark(id), id, 0) == Mark(id) && Room(Mark(id), 0)
  {
    KeyTwice(id);
    hide Key;
    LiveOfNone(0);
    assert Live(Mark(id), 0) == Mark(id) by {
      LiveSnoc(Mark(id), 0, 0);
      assert Mark(id)[..1] == Mark(id) && Mark(id)[..0] == [];
    }
    assert Mark(id)[0].id == Key(id);
  }

  lemma AddedOnly(peers: seq<Peer>, a: Addr, now: int)
    requires NormalizeAddr(a) == a
    ensures forall b :: b in Keys(Added(peers, a, now)) ==> b in Keys(peers) || b == a
  {
    UpsertKeys(peers, Entry(a, now), MAX_NEIGHBORS);
  }

  /** How a node takes a copy. */
  lemma HandleAlone(n: Node, q: Query)
    requires n.seen == [] || n.seen == Mark(q.id)
    requires NormalizeAddr(q.origin) == q.origin
    ensures var h := Handle(n, q, 0);
      && h.node.seen == Mark(q.id) && (h.accepted <==> n.seen == [])
      && (forall b :: b in Keys(h.node.neighbors) ==> b in Keys(n.neighbors) || b == q.origin)
  {
    MarkChecks(q.id);
    AddedOnly(n.neighbors, q.origin, 0);
    hide Registered, IsNew, Added, Mark;
  }

  lemma OriginateAlone(s0: Net, at: Addr, id: string, ttl: nat)
    requires Fresh(s0) && at in s0.nodes
    ensures Alone(s0, Step(s0, Originate(at, id, ttl, 0)), at, id)
    ensures Step(s0, Originate(at, id, ttl, 0)).log == [Event(at, id, [], Clamp(ttl))]
  {
    MarkChecks(id);
    hide Registered, Mark, Targets;
    StepKeepsListsBounded(s0, Originate(at, id, ttl, 0));
  }

  /** A copy from any node that is there, delivered at time 0. */
  lemma DeliverAlone(s0: Net, s: Net, k: nat, at: Addr, id: string)
    requires Alone(s0, s, at, id) && k < |s.flight| && NormalizeAddr(at) == at
    ensures Alone(s0, Step(s, Deliver(k, 0)), at, id)
    ensures Quiet(s, Deliver(k, 0), Key(id), 0) && Reliable(s, Deliver(k, 0), Key(id))
  {
    var p, t := s.flight[k], Step(s, Deliver(k, 0));
    StepKeepsListsBounded(s, Deliver(k, 0));
    WithoutMembers(s.flight, k);
    MarkChecks(id);
    if p.dest in s.nodes {
      hide Handle, Mark, Keys, Without, Room, Key, ListsBounded, Gained;
      DeliveryEffects(s, k, 0);
      HandleAlone(s.nodes[p.dest], p.query);
      forall v | v in t.nodes
        ensures Gained(s0, t, v, at)
      {
        GainedByDelivery(s0, s, t, p, v, at);
      }
    } else {
      hide Handle, Mark, Without, Room, Key;
      UndeliveredStep(s, k, 0);
    }
  }

  lemma GainedByDelivery(s0: Net, s: Net, t: Net, p: Packet, v: Addr, at: Addr)
    requires s.nodes.Keys == s0.nodes.Keys && p.dest in s.nodes && v in s.nodes && p.query.origin == at && Gained(s0, s, v, at)
    requires t.nodes == s.nodes[p.dest := Handle(s.nodes[p.dest], p.query, 0).node]
    requires forall b :: b in Keys(Handle(s.nodes[p.dest], p.query, 0).node.neighbors) ==>
      b in Keys(s.nodes[p.dest].neighbors) || b == at
    ensures Gained(s0, t, v, at)
  {
    hide Handle, Keys;
  }

  lemma RunSnoc(s: Net, actions: seq<Action>, a: Action)
    ensures Run(s, actions + [a]) == Step(Run(s, actions), a)
  {
    assert (actions + [a])[..|actions + [a]| - 1] == actions;
  }

  lemma QuietSnoc(s: Net, actions: seq<Action>, a: Action, key: string, t0: int)
    requires QuietRun(s, actions, key, t0) && Quiet(Run(s, actions), a, key, t0)
    requires ReliableRun(s, actions, key) && Reliable(Run(s, actions), a, key)
    ensures QuietRun(s, actions + [a], key, t0) && ReliableRun(s, actions + [a], key)
  {
    hide Quiet, Reliable, Run;
    var all := actions + [a];
    forall n | 0 <= n < |all|
      ensures Quiet(Run(s, all[..n]), all[n], key, t0) && Reliable(Run(s, all[..n]), all[n], key)
    {
      if n < |actions| {
        assert all[..n] == actions[..n];
      } else {
        assert all[..n] == actions;
      }
    }
  }

  // A node that is out of reach: only the gate lists it, the gate has had the query, and no copy is on its way to it.
  ghost predicate Sealed(s0: Net, s: Net, at: Addr, id: string, gate: Addr, missed: Addr) {
    && gate in s.nodes && missed != at && s.nodes[gate].seen == Mark(id)
    && (forall v :: v in s0.nodes && v != gate ==> missed !in Keys(s0.nodes[v].neighbors))
    && (forall p :: p in s.flight ==> p.dest != missed)
    && (forall e :: e in s.log ==> e.at != missed)
  }

  lemma DeliverSealed(s0: Net, s: Net, k: nat, at: Addr, id: string, gate: Addr, missed: Addr)
    requires Alone(s0, s, at, id) && k < |s.flight| && NormalizeAddr(at) == at && Sealed(s0, s, at, id, gate, missed)
    ensures Sealed(s0, Step(s, Deliver(k, 0)), at, id, gate, missed)
  {
    var p, t := s.flight[k], Step(s, Deliver(k, 0));
    WithoutMembers(s.flight, k);
    if p.dest in s.nodes {
      hide Handle, Keys, Without, Mark, ListsBounded;
      DeliveryEffects(s, k, 0);
      HandleAlone(s.nodes[p.dest], p.query);
      HandleTargets(s.nodes[p.dest], p.query, 0);
      assert Gained(s0, s, p.dest, at);
      forall c | c in DeliveryCopies(s, p, 0)
        ensures c.dest != missed
      {
        assert c.dest in Handle(s.nodes[p.dest], p.query, 0).targets;
        if p.dest == gate {
          MarkIsSomething(id);
        }
      }
    } else {
      hide Handle, Keys, Without, Mark;
      UndeliveredStep(s, k, 0);
    }
  }

  lemma MarkIsSomething(id: string)
    ensures Mark(id) != []
  {
  }

  // The runs from `start` that the lemmas below extend.
  ghost predicate RunsAlone(s0: Net, start: Net, actions: seq<Action>, at: Addr, id: string) {
    && Alone(s0, Run(start, actions), at, id)
    && QuietRun(start, actions, Key(id), 0) && ReliableRun(start, actions, Key(id))
  }

  lemma OneMore(s0: Net, start: Net, actions: seq<Action>, at: Addr, id: string, k: nat)
    requires RunsAlone(s0, start, actions, at, id) && k < |Run(start, actions).flight| && NormalizeAddr(at) == at
    ensures RunsAlone(s0, start, actions + [Deliver(k, 0)], at, id)
  {
    hide Run, Alone, Quiet, Reliable, Key, Step;
    DeliverAlone(s0, Run(start, actions), k, at, id);
    RunSnoc(start, actions, Deliver(k, 0));
    QuietSnoc(start, actions, Deliver(k, 0), Key(id), 0);
  }

  /** Delivering what is in flight, one copy after the other, comes to an end; a sealed node stays out of reach. */
  lemma Drains(s0: Net, start: Net, actions: seq<Action>, at: Addr, id: string, gate: Addr, missed: Addr)
    returns (more: seq<Action>)
    requires RunsAlone(s0, start, actions, at, id) && NormalizeAddr(at) == at
    ensures RunsAlone(s0, start, actions + more, at, id) && Run(start, actions + more).flight == []
    ensures Sealed(s0, Run(start, actions), at, id, gate, missed) ==> Sealed(s0, Run(start, actions + more), at, id, gate, missed)
    decreases Load(Run(start, actions).flight)
  {
    hide Run, Sealed, QuietRun, ReliableRun, Step, Load, Key;
    var s := Run(start, actions);
    if s.flight == [] {
      more := [];
      assert actions + more == actions;
    } else {
      OneMore(s0, start, actions, at, id, 0);
      RunSnoc(start, actions, Deliver(0, 0));
      StepLoad(s, Deliver(0, 0));
      if Sealed(s0, s, at, id, gate, missed) {
        DeliverSealed(s0, s, 0, at, id, gate, missed);
      }
      more := Drains(s0, start, actions + [Deliver(0, 0)], at, id, gate, missed);
      assert actions + ([Deliver(0, 0)] + more) == actions + [Deliver(0, 0)] + more;
      more := [Deliver(0, 0)] + more;
    }
  }

  lemma FreshStart(s0: Net, at: Addr, id: string, ttl: nat)
    requires Fresh(s0) && at in s0.nodes
    ensures RunsAlone(s0, Step(s0, Originate(at, id, ttl, 0)), [], at, id)
    ensures NoTrace(s0, Key(id)) && Room(s0.nodes[at].seen, 0)
  {
    OriginateAlone(s0, at, id, ttl);
    MarkChecks(id);
  }

  /** In any network that has seen no query, whatever its topology, a query has a run that ends with nothing in flight, no
      loss, no expiry and room in all tables. */
  lemma FreshNetworkRunsOut(s0: Net, at: Addr, id: string, ttl: nat) returns (actions: seq<Action>)
    requires Fresh(s0) && at in s0.nodes && NormalizeAddr(at) == at
    ensures RanOut(s0, at, id, ttl, 0, actions) && Alone(s0, Final(s0, at, id, ttl, 0, actions), at, id)
  {
    hide Run, Step, NoTrace, Room, QuietRun, ReliableRun, Alone, Key;
    FreshStart(s0, at, id, ttl);
    actions := Drains(s0, Step(s0, Originate(at, id, ttl, 0)), [], at, id, at, at);
    assert [] + actions == actions;
  }
}
