/** Handling and forwarding of a flooded query at one node (search/flood.c), and the network of such nodes. */
module Flood {
  import opened Addresses
  import opened OrderedMaps
  import opened SeenCaches
  import opened Neighbors

  const MAX_TTL: nat := 6
  const NO_SENDER: Addr := Addr("", 0)

  datatype Query = Query(id: string, origin: Addr, ttl: nat)

  datatype Node = Node(neighbors: seq<Peer>, seen: seq<Seen>)

  function Clamp(ttl: nat): nat {
    if ttl > MAX_TTL then MAX_TTL else ttl
  }

  /** The listed addresses other than the sender's. */
  function Targets(peers: seq<Peer>, sender: Addr): (t: seq<Addr>)
    ensures |t| <= |peers|
    ensures forall a :: a in t <==> a in Keys(peers) && a != sender
  {
    if peers == [] then []
    else
      var init, last := peers[..|peers| - 1], peers[|peers| - 1].key;
      assert Keys(peers) == Keys(init) + [last];
      Targets(init, sender) + (if last == sender then [] else [last])
  }

  /** The query as it is passed on: its time to live clamped, then lowered by one. */
  function PassedOn(q: Query): Query
    requires q.ttl > 0
  {
    q.(ttl := Clamp(q.ttl) - 1)
  }

  // What a node does with a query: its new state, whether the query was new to it (and so answered and passed on),
  // and where it is sent.
  datatype Handling = Handling(node: Node, accepted: bool, targets: seq<Addr>)

  function Handle(n: Node, q: Query, now: int): Handling {
    var seen := Registered(n.seen, q.id, now);
    if !IsNew(n.seen, q.id, now) then Handling(Node(n.neighbors, seen), false, [])
    else
      var neighbors := if q.origin.ip != "" && q.origin.port != 0 then Added(n.neighbors, q.origin, now) else n.neighbors;
      Handling(Node(neighbors, seen), true, if q.ttl == 0 then [] else Targets(neighbors, NO_SENDER))
  }

  class FloodNode {
    const cache: SeenCache
    const neighbors: NeighborList

    ghost predicate Valid()
      reads this, cache, neighbors
    {
      cache.Valid() && neighbors.Valid() && cache.queryCache as object != neighbors.peers as object
    }

    ghost function View(): Node
      requires Valid()
      reads this, cache, cache.queryCache, neighbors, neighbors.peers
    {
      Node(neighbors.Contents(), cache.Entries())
    }

    constructor ()
      ensures Valid() && View() == Node([], [])
    {
      var c := new SeenCache();
      var n := new NeighborList();
      cache, neighbors := c, n;
    }

    /** flood_forward_query: one copy for each neighbour but the sender, none when the time to live is used up. */
    method ForwardQuery(q: Query, sender: Addr) returns (sent: seq<(Addr, Query)>)
      requires Valid()
      ensures q.ttl == 0 ==> sent == []
      ensures q.ttl > 0 ==> |sent| == |Targets(View().neighbors, sender)|
      ensures q.ttl > 0 ==> forall i :: 0 <= i < |sent| ==> sent[i] == (Targets(View().neighbors, sender)[i], PassedOn(q))
    {
      sent := [];
      var ttl := if q.ttl > MAX_TTL then MAX_TTL else q.ttl;
      if ttl <= 0 {
        return;
      }
      ttl := ttl - 1;
      var activePeers := neighbors.Snapshot(MAX_NEIGHBORS, true);
      assert activePeers == View().neighbors;
      var i := 0;
      while i < |activePeers|
        invariant i <= |activePeers|
        invariant |sent| == |Targets(activePeers[..i], sender)|
        invariant forall k :: 0 <= k < |sent| ==> sent[k] == (Targets(activePeers[..i], sender)[k], PassedOn(q))
      {
        assert activePeers[..i + 1][..i] == activePeers[..i];
        if activePeers[i].key != sender {
          sent := sent + [(activePeers[i].key, q.(ttl := ttl))];
        }
        i := i + 1;
      }
      assert activePeers[..i] == activePeers;
    }

    /** The QUERY_FLOOD branch of flood_handle_message. */
    method HandleQuery(q: Query, now: int) returns (accepted: bool, sent: seq<(Addr, Query)>)
      requires Valid()
      modifies cache, cache.queryCache, neighbors, neighbors.peers
      ensures Valid()
      ensures var h := Handle(old(View()), q, now);
        && View() == h.node && accepted == h.accepted && |sent| == |h.targets|
        && forall i :: 0 <= i < |sent| ==> q.ttl > 0 && sent[i] == (h.targets[i], PassedOn(q))
    {
      sent := [];
      accepted := cache.CheckAndRegister(q.id, now, true);
      if accepted {
        if q.origin.ip != "" && q.origin.port != 0 {
          var _ := neighbors.Add(q.origin, now, true);
        }
        sent := ForwardQuery(q, NO_SENDER);
      }
    }
  }

  // --- The network ---

  // A query on its way.  `path` lists the nodes that passed it on, the origin first, and `budget` is the clamped
  // time to live it started with: a record of the past that no node reads.
  datatype Packet = Packet(dest: Addr, query: Query, path: seq<Addr>, budget: nat)

  // A node started a query (empty path), or accepted one that had come along a path.
  datatype Event = Event(at: Addr, id: string, path: seq<Addr>, budget: nat)

  datatype Net = Net(nodes: map<Addr, Node>, flight: seq<Packet>, log: seq<Event>)

  datatype Action =
    | Originate(at: Addr, id: string, ttl: nat, now: int)   // search_distributed
    | Deliver(k: nat, now: int)                             // flood_handle_message on the k-th packet in flight
    | Lose(k: nat)                                          // a failed connection or transmission
    | Learn(at: Addr, peer: Addr, now: int)                 // neighbors_add on a refresh from the server

  function Packets(targets: seq<Addr>, q: Query, path: seq<Addr>, budget: nat): (ps: seq<Packet>)
    ensures |ps| == |targets| && forall i :: 0 <= i < |ps| ==> ps[i] == Packet(targets[i], q, path, budget)
  {
    seq(|targets|, i requires 0 <= i < |targets| => Packet(targets[i], q, path, budget))
  }

  function Without(flight: seq<Packet>, k: nat): seq<Packet>
    requires k < |flight|
  {
    flight[..k] + flight[k + 1..]
  }

  function OriginateStep(s: Net, at: Addr, id: string, ttl: nat, now: int): Net
    requires at in s.nodes
  {
    var n := s.nodes[at].(seen := Registered(s.nodes[at].seen, id, now));
    var q := Query(id, at, ttl);
    s.(nodes := s.nodes[at := n],
       flight := s.flight + (if ttl == 0 then [] else Packets(Targets(n.neighbors, NO_SENDER), PassedOn(q), [at], Clamp(ttl))),
       log := s.log + [Event(at, id, [], Clamp(ttl))])
  }

  function DeliverStep(s: Net, k: nat, now: int): Net
    requires k < |s.flight|
  {
    var p := s.flight[k];
    var rest := Without(s.flight, k);
    if p.dest !in s.nodes then s.(flight := rest)
    else
      var h := Handle(s.nodes[p.dest], p.query, now);
      Net(s.nodes[p.dest := h.node],
          rest + (if h.targets == [] || p.query.ttl == 0 then []
                  else Packets(h.targets, PassedOn(p.query), p.path + [p.dest], p.budget)),
          if h.accepted then s.log + [Event(p.dest, p.query.id, p.path, p.budget)] else s.log)
  }

  /** One step of the network; an action that is not possible leaves it as it is. */
  function Step(s: Net, a: Action): Net {
    match a
    case Originate(at, id, ttl, now) => if at in s.nodes then OriginateStep(s, at, id, ttl, now) else s
    case Deliver(k, now) => if k < |s.flight| then DeliverStep(s, k, now) else s
    case Lose(k) => if k < |s.flight| then s.(flight := Without(s.flight, k)) else s
    case Learn(at, peer, now) =>
      if at in s.nodes then
        s.(nodes := s.nodes[at := s.nodes[at].(neighbors := Added(s.nodes[at].neighbors, peer, now))])
      else s
  }

  function Run(s: Net, actions: seq<Action>): Net {
    if actions == [] then s
    else Step(Run(s, actions[..|actions| - 1]), actions[|actions| - 1])
  }

  // --- Termination ---

  /** An upper bound on the deliveries a packet with this much time to live can still cause, its own included. */
  function Weight(ttl: nat): (w: nat)
    ensures w >= 1
  {
    if ttl == 0 then 1 else 1 + MAX_NEIGHBORS * Weight(ttl - 1)
  }

  function Load(flight: seq<Packet>): nat {
    if flight == [] then 0 else Load(flight[..|flight| - 1]) + Weight(Clamp(flight[|flight| - 1].query.ttl))
  }

  ghost predicate ListsBounded(s: Net) {
    forall a :: a in s.nodes ==> |s.nodes[a].neighbors| <= MAX_NEIGHBORS
  }

  function QueryBound(): nat {
    MAX_NEIGHBORS * Weight(MAX_TTL - 1)
  }

  /** The packets actually delivered in a run. */
  function Deliveries(s: Net, actions: seq<Action>): nat {
    if actions == [] then 0
    else
      var before, a := actions[..|actions| - 1], actions[|actions| - 1];
      Deliveries(s, before) + (if a.Deliver? && a.k < |Run(s, before).flight| then 1 else 0)
  }

  function Originations(actions: seq<Action>): nat {
    if actions == [] then 0
    else Originations(actions[..|actions| - 1]) + (if actions[|actions| - 1].Originate? then 1 else 0)
  }

  lemma {:induction false} LoadAppend(a: seq<Packet>, b: seq<Packet>)
    ensures Load(a + b) == Load(a) + Load(b)
  {
    if b == [] {
      assert a + b == a;
    } else {
      LoadAppend(a, b[..|b| - 1]);
      assert (a + b)[..|a + b| - 1] == a + b[..|b| - 1];
    }
  }

  lemma LoadOfOne(p: Packet)
    ensures Load([p]) == Weight(Clamp(p.query.ttl))
  {
    assert Load([p]) == Load([]) + Weight(Clamp(p.query.ttl));
  }

  lemma SplitAt<T>(s: seq<T>, k: nat)
    requires k < |s|
    ensures s == s[..k] + [s[k]] + s[k + 1..]
  {
  }

  lemma LoadWithout(flight: seq<Packet>, k: nat)
    requires k < |flight|
    ensures Load(flight) == Load(Without(flight, k)) + Weight(Clamp(flight[k].query.ttl))
  {
    var before, single, after := flight[..k], [flight[k]], flight[k + 1..];
    SplitAt(flight, k);
    LoadOfOne(flight[k]);
    hide Load;
    LoadAppend(before + single, after);
    LoadAppend(before, single);
    LoadAppend(before, after);
  }

  lemma {:induction false} LoadOfCopies(targets: seq<Addr>, q: Query, path: seq<Addr>, budget: nat)
    ensures Load(Packets(targets, q, path, budget)) == |targets| * Weight(Clamp(q.ttl))
  {
    hide Weight, Clamp;
    var ps, w := Packets(targets, q, path, budget), Weight(Clamp(q.ttl));
    if targets != [] {
      LoadOfCopies(targets[..|targets| - 1], q, path, budget);
      assert |targets| * w == (|targets| - 1) * w + w;
      assert ps[..|ps| - 1] == Packets(targets[..|targets| - 1], q, path, budget);
    }
  }

  lemma CopiesBounded(targets: seq<Addr>, q: Query, path: seq<Addr>, budget: nat)
    requires |targets| <= MAX_NEIGHBORS && q.ttl > 0
    ensures Load(Packets(targets, PassedOn(q), path, budget)) <= MAX_NEIGHBORS * Weight(Clamp(q.ttl) - 1)
  {
    LoadOfCopies(targets, PassedOn(q), path, budget);
    Scale(|targets|, MAX_NEIGHBORS, Weight(Clamp(q.ttl) - 1));
  }

  lemma Scale(a: nat, b: nat, w: nat)
    requires a <= b
    ensures a * w <= b * w
  {
    assert (b - a) * w >= 0;
    assert b * w == a * w + (b - a) * w;
  }

  lemma {:induction false} WeightGrows(a: nat, b: nat)
    requires a <= b
    ensures Weight(a) <= Weight(b)
    decreases b
  {
    if a < b {
      WeightGrows(a, b - 1);
    }
  }

  lemma StepKeepsListsBounded(s: Net, a: Action)
    requires ListsBounded(s)
    ensures ListsBounded(Step(s, a))
  {
    hide Registered, IsNew, Without, Upsert;
  }

  /** Each delivery lowers the load by at least one, whatever the topology and the caches; only a new query adds to
      it, and by a fixed amount. */
  lemma StepLoad(s: Net, a: Action)
    requires ListsBounded(s)
    ensures a.Deliver? && a.k < |s.flight| ==> Load(Step(s, a).flight) + 1 <= Load(s.flight)
    ensures a.Originate? ==> Load(Step(s, a).flight) <= Load(s.flight) + QueryBound()
    ensures !a.Originate? ==> Load(Step(s, a).flight) <= Load(s.flight)
  {
    hide Registered, IsNew, Added, Without, Load;
    match a
    case Originate(at, id, ttl, now) =>
      if at in s.nodes && ttl > 0 {
        var q := Query(id, at, ttl);
        var targets := Targets(s.nodes[at].neighbors, NO_SENDER);
        var copies := Packets(targets, PassedOn(q), [at], Clamp(ttl));
        CopiesBounded(targets, q, [at], Clamp(ttl));
        WeightGrows(Clamp(ttl) - 1, MAX_TTL - 1);
        LoadAppend(s.flight, copies);
        assert Step(s, a).flight == s.flight + copies;
      } else {
        assert s.flight + [] == s.flight;
      }
    case Deliver(k, now) =>
      if k < |s.flight| {
        LoadWithout(s.flight, k);
        DeliveryLoad(s, k, now);
      }
    case Lose(k) =>
      if k < |s.flight| {
        LoadWithout(s.flight, k);
      }
    case Learn(at, peer, now) =>
  }

  lemma DeliveryLoad(s: Net, k: nat, now: int)
    requires ListsBounded(s) && k < |s.flight|
    ensures Load(DeliverStep(s, k, now).flight) < Load(Without(s.flight, k)) + Weight(Clamp(s.flight[k].query.ttl))
  {
    hide Registered, IsNew, Added, Without, Load;
    var p, rest := s.flight[k], Without(s.flight, k);
    if p.dest in s.nodes {
      var h := Handle(s.nodes[p.dest], p.query, now);
      if h.targets == [] || p.query.ttl == 0 {
        assert rest + [] == rest;
      } else {
        var copies := Packets(h.targets, PassedOn(p.query), p.path + [p.dest], p.budget);
        CopiesBounded(h.targets, p.query, p.path + [p.dest], p.budget);
        LoadAppend(rest, copies);
      }
    }
  }

  lemma {:induction false} RunKeepsListsBounded(s: Net, actions: seq<Action>)
    requires ListsBounded(s)
    ensures ListsBounded(Run(s, actions))
  {
    if actions != [] {
      RunKeepsListsBounded(s, actions[..|actions| - 1]);
      StepKeepsListsBounded(Run(s, actions[..|actions| - 1]), actions[|actions| - 1]);
    }
  }

  /** On any topology, with any cache contents, any losses and any other traffic, the packets delivered and those
      still owed never exceed what was owed at the start plus 16 + 16^2 + ... + 16^6 for each query started. */
  lemma {:induction false} FloodTerminates(s: Net, actions: seq<Action>)
    requires ListsBounded(s)
    ensures QueryBound() == 17895696
    ensures Deliveries(s, actions) + Load(Run(s, actions).flight)
         <= Load(s.flight) + 17895696 * Originations(actions)
  {
    BoundValue();
    if actions != [] {
      hide Step, Load, Weight, QueryBound;
      var before, a := actions[..|actions| - 1], actions[|actions| - 1];
      FloodTerminates(s, before);
      RunKeepsListsBounded(s, before);
      StepLoad(Run(s, before), a);
    }
  }

  lemma BoundValue()
    ensures QueryBound() == 17895696
  {
    assert Weight(1) == 17;
    assert Weight(2) == 273;
    assert Weight(3) == 4369;
    assert Weight(4) == 69905;
    assert Weight(5) == 1118481;
  }
}
