/** How many nodes a query is sure to cover (search/flood.c): min(ttl, 6) + 1, and not one more. */
module CoverageLimits {
  import opened Addresses
  import opened OrderedMaps
  import opened SeenCaches
  import opened Flood
  import opened Hops
  import opened Dedup
  import opened Coverage
  import opened SingleQuery

  // --- Networks in a line ---

  // Node i of a line; on one host, the nodes differ by their ports.
  function LineAddr(i: nat): Addr {
    Addr("n", i + 1)
  }

  /** Node i lists node i + 1; node 0 also lists the node a shortcut leads to, if there is one. */
  function LineNode(n: nat, shortcut: nat, i: nat): Node {
    Node((if i + 1 < n then [Entry(LineAddr(i + 1), 0)] else [])
         + (if i == 0 && 1 < shortcut < n then [Entry(LineAddr(shortcut), 0)] else []), [])
  }

  function LineNodes(n: nat, shortcut: nat, k: nat): map<Addr, Node> {
    if k == 0 then map[] else LineNodes(n, shortcut, k - 1)[LineAddr(k - 1) := LineNode(n, shortcut, k - 1)]
  }

  function Line(n: nat, shortcut: nat): Net {
    Net(LineNodes(n, shortcut, n), [], [])
  }

  predicate OnLine(a: Addr, k: nat) {
    0 < a.port <= k && a == LineAddr(a.port - 1)
  }

  lemma OnLonger(a: Addr, k: nat)
    ensures OnLine(a, k + 1) <==> OnLine(a, k) || a == LineAddr(k)
    ensures OnLine(LineAddr(k), k + 1) && !OnLine(LineAddr(k), k) && LineAddr(k).port == k + 1
  {
  }

  // The first k nodes of a line.
  ghost predicate IsLine(m: map<Addr, Node>, n: nat, shortcut: nat, k: nat) {
    && (forall a :: a in m <==> OnLine(a, k))
    && (forall a :: OnLine(a, k) ==> a.port > 0 && m[a] == LineNode(n, shortcut, a.port - 1))
  }

  lemma {:induction false} LineNodesAre(n: nat, shortcut: nat, k: nat)
    ensures |LineNodes(n, shortcut, k)| == k && IsLine(LineNodes(n, shortcut, k), n, shortcut, k)
  {
    hide LineNodes, IsLine, LineNode, LineAddr, OnLine;
    LineNodesUnfold(n, shortcut, k);
    if k > 0 {
      LineNodesAre(n, shortcut, k - 1);
      OneMoreNode(LineNodes(n, shortcut, k - 1), n, shortcut, k - 1);
    }
  }

  lemma LineNodesUnfold(n: nat, shortcut: nat, k: nat)
    ensures k == 0 ==> LineNodes(n, shortcut, k) == map[] && IsLine(map[], n, shortcut, k)
    ensures k > 0 ==>
      LineNodes(n, shortcut, k) == LineNodes(n, shortcut, k - 1)[LineAddr(k - 1) := LineNode(n, shortcut, k - 1)]
  {
  }

  lemma OneMoreNode(before: map<Addr, Node>, n: nat, shortcut: nat, k: nat)
    requires IsLine(before, n, shortcut, k)
    ensures var after := before[LineAddr(k) := LineNode(n, shortcut, k)];
            |after| == |before| + 1 && IsLine(after, n, shortcut, k + 1)
  {
    hide LineNode, OnLine, LineAddr;
    OnLonger(LineAddr(k), k);
    OneMoreKey(before, LineAddr(k), LineNode(n, shortcut, k));
    forall a
      ensures OnLine(a, k + 1) <==> OnLine(a, k) || a == LineAddr(k)
    {
      OnLonger(a, k);
    }
  }

  lemma OneMoreKey<K, V>(m: map<K, V>, k: K, v: V)
    requires k !in m
    ensures |m[k := v]| == |m| + 1
  {
    assert m[k := v].Keys == m.Keys + {k};
  }

  lemma LineIsFresh(n: nat, shortcut: nat)
    ensures Fresh(Line(n, shortcut)) && |Line(n, shortcut).nodes| == n
    ensures NormalizeAddr(LineAddr(0)) == LineAddr(0)
  {
    LineNodesAre(n, shortcut, n);
    assert forall a :: a in Line(n, shortcut).nodes ==> Line(n, shortcut).nodes[a] == LineNode(n, shortcut, a.port - 1);
  }

  /** What a node of the line lists. */
  lemma LineLinks(n: nat, shortcut: nat, a: Addr, b: Addr)
    requires Link(Line(n, shortcut), a, b)
    ensures 0 < a.port <= n && a == LineAddr(a.port - 1)
    ensures (b == LineAddr(a.port) && a.port < n) || (a == LineAddr(0) && b == LineAddr(shortcut) && 1 < shortcut < n)
  {
    LineNodesAre(n, shortcut, n);
    hide LineNodes, LineNode;
    LineLists(n, shortcut, a.port - 1, b);
  }

  lemma LineLists(n: nat, shortcut: nat, i: nat, b: Addr)
    requires b in Keys(LineNode(n, shortcut, i).neighbors)
    ensures (b == LineAddr(i + 1) && i + 1 < n) || (i == 0 && b == LineAddr(shortcut) && 1 < shortcut < n)
  {
    var peers := LineNode(n, shortcut, i).neighbors;
    var j :| 0 <= j < |peers| && peers[j].key == b;
  }

  lemma LineLinksThere(n: nat, shortcut: nat, i: nat)
    ensures i + 1 < n ==> Link(Line(n, shortcut), LineAddr(i), LineAddr(i + 1))
    ensures 1 < shortcut < n ==> Link(Line(n, shortcut), LineAddr(0), LineAddr(shortcut))
    ensures i < n ==> LineAddr(i) in Line(n, shortcut).nodes
  {
    LineNodesAre(n, shortcut, n);
    var s := Line(n, shortcut);
    if i + 1 < n {
      assert Keys(s.nodes[LineAddr(i)].neighbors)[0] == LineAddr(i + 1);
    }
    if 1 < shortcut < n {
      assert Keys(s.nodes[LineAddr(0)].neighbors)[1] == LineAddr(shortcut);
    }
  }

  // --- The end of a line is out of reach ---

  lemma {:induction false} RunHops(s: Net, actions: seq<Action>)
    requires HopsOk(s)
    ensures HopsOk(Run(s, actions))
  {
    if actions != [] {
      hide Step, HopsOk;
      RunHops(s, actions[..|actions| - 1]);
      StepHops(Run(s, actions[..|actions| - 1]), actions[|actions| - 1]);
    }
  }

  /** In a run of one query along a line, each link leads one node on or back to the origin. */
  lemma LineLink(n: nat, s: Net, id: string, a: Addr, b: Addr)
    requires Alone(Line(n, 0), s, LineAddr(0), id) && Link(s, a, b)
    ensures b.port <= a.port + 1
  {
    assert Gained(Line(n, 0), s, a, LineAddr(0));
    if b != LineAddr(0) {
      LineLinks(n, 0, a, b);
    } else {
      LineNodesAre(n, 0, n);
    }
  }

  lemma {:induction false} PathAdvances(n: nat, s: Net, id: string, path: seq<Addr>, k: nat)
    requires Alone(Line(n, 0), s, LineAddr(0), id) && k < |path| && path[0] == LineAddr(0)
    requires forall i :: 0 <= i < |path| - 1 ==> Link(s, path[i], path[i + 1])
    ensures path[k].port <= k + 1
  {
    hide Alone, Link;
    if k > 0 {
      PathAdvances(n, s, id, path, k - 1);
      LineLink(n, s, id, path[k - 1], path[k]);
    }
  }

  /** No run of a query along a line gets further than its time to live. */
  lemma LineEndMissed(n: nat, ttl: nat, id: string, actions: seq<Action>)
    requires n >= Clamp(ttl) + 2
    requires Alone(Line(n, 0), Final(Line(n, 0), LineAddr(0), id, ttl, 0, actions), LineAddr(0), id)
    ensures !AcceptedAt(Final(Line(n, 0), LineAddr(0), id, ttl, 0, actions), LineAddr(n - 1), Key(id))
  {
    hide Run, Step, Alone, Linked, Line, Key, Link;
    var s0, at := Line(n, 0), LineAddr(0);
    var start := Step(s0, Originate(at, id, ttl, 0));
    var t := Final(s0, at, id, ttl, 0, actions);
    LineIsFresh(n, 0);
    LineLinksThere(n, 0, 0);
    StepHops(s0, Originate(at, id, ttl, 0));
    RunHops(start, actions);
    OriginateAlone(s0, at, id, ttl);
    LogGrows(start, actions);
    assert t.log[0] == Event(at, id, [], Clamp(ttl));
    if i :| 0 <= i < |t.log| && t.log[i].at == LineAddr(n - 1) && Key(t.log[i].id) == Key(id) {
      var e := t.log[i];
      assert EventOk(t, e);
      AloneLog(s0, t, at, id);
      if e.path != [] {
        assert Event(e.path[0], e.id, [], e.budget) in t.log;
        LinkedParts(t, e.path, e.at);
        PathAdvances(n, t, id, e.path, |e.path| - 1);
        LineLink(n, t, id, e.path[|e.path| - 1], e.at);
      }
    }
  }

  lemma AloneLog(s0: Net, s: Net, at: Addr, id: string)
    requires Alone(s0, s, at, id)
    ensures s.log != [] && forall e :: e in s.log && e.path == [] ==> e == s.log[0]
  {
  }

  lemma LinkedParts(s: Net, path: seq<Addr>, dest: Addr)
    requires Linked(s, path, dest)
    ensures path != [] && Link(s, path[|path| - 1], dest)
    ensures forall i :: 0 <= i < |path| - 1 ==> Link(s, path[i], path[i + 1])
  {
  }

  lemma LineWalk(n: nat) returns (walk: seq<Addr>)
    requires n > 0
    ensures Walk(Line(n, 0), walk) && WalkFrom(walk, LineAddr(0)) && walk[|walk| - 1] == LineAddr(n - 1)
  {
    hide Line, Link, LineAddr;
    walk := seq(n, i requires 0 <= i < n => LineAddr(i));
    forall i | 0 <= i < n
      ensures walk[i] in Line(n, 0).nodes
      ensures i < n - 1 ==> Link(Line(n, 0), walk[i], walk[i + 1])
    {
      LineLinksThere(n, 0, i);
    }
  }

  // --- Coverage, exactly ---

  /** In every network of n nodes, every run of a query that ran out without loss, expiry or full tables has had it
      accepted at the end of every walk of at most `hops` links from its origin. */
  ghost predicate CoversWithin(ttl: nat, n: nat, hops: nat) {
    forall s0, at, id, t0, actions, walk ::
      RanOut(s0, at, id, ttl, t0, actions) && |s0.nodes| == n && Walk(s0, walk) && WalkFrom(walk, at) && |walk| <= hops + 1 ==>
        AcceptedAt(Final(s0, at, id, ttl, t0, actions), walk[|walk| - 1], Key(id))
  }

  /** Every node that can be reached is covered. */
  ghost predicate CoversAll(ttl: nat, n: nat) {
    forall hops: nat :: CoversWithin(ttl, n, hops)
  }

  lemma CoveredWithin(ttl: nat, n: nat, hops: nat)
    requires n <= Clamp(ttl) + 1
    ensures CoversWithin(ttl, n, hops)
  {
    hide RanOut, Final, AcceptedAt, Walk;
    forall s0, at, id, t0, actions, walk |
        RanOut(s0, at, id, ttl, t0, actions) && |s0.nodes| == n && Walk(s0, walk) && WalkFrom(walk, at) && |walk| <= hops + 1
      ensures AcceptedAt(Final(s0, at, id, ttl, t0, actions), walk[|walk| - 1], Key(id))
    {
      SmallNetworkCovered(s0, at, id, ttl, t0, actions, walk);
    }
  }

  predicate WalkFrom(walk: seq<Addr>, at: Addr) {
    walk != [] && walk[0] == at
  }

  /** A query is sure to cover every reachable node of every network of n nodes if and only if n is at most its clamped time
      to live plus one. */
  lemma CoverageExact(ttl: nat, n: nat)
    requires n > 0
    ensures CoversAll(ttl, n) <==> n <= (if ttl > 6 then 6 else ttl) + 1
  {
    hide RanOut, Final, AcceptedAt, Walk, Alone, Line, CoversWithin;
    if n <= Clamp(ttl) + 1 {
      forall hops: nat
        ensures CoversWithin(ttl, n, hops)
      {
        CoveredWithin(ttl, n, hops);
      }
    } else {
      LineIsFresh(n, 0);
      LineLinksThere(n, 0, 0);
      var actions := FreshNetworkRunsOut(Line(n, 0), LineAddr(0), "q", ttl);
      LineEndMissed(n, ttl, "q", actions);
      var walk := LineWalk(n);
      NotCovered(Line(n, 0), LineAddr(0), "q", ttl, actions, walk, |walk|);
    }
  }

  lemma NotCovered(s0: Net, at: Addr, id: string, ttl: nat, actions: seq<Action>, walk: seq<Addr>, hops: nat)
    requires RanOut(s0, at, id, ttl, 0, actions) && Walk(s0, walk) && WalkFrom(walk, at) && |walk| <= hops + 1
    requires !AcceptedAt(Final(s0, at, id, ttl, 0, actions), walk[|walk| - 1], Key(id))
    ensures !CoversWithin(ttl, |s0.nodes|, hops)
  {
    hide RanOut, Final, AcceptedAt;
  }

  // --- A node two links away ---

  // The query has gone along the line up to node j, where its next copy arrives with what time to live that leaves; nodes
  // from j on have not seen it, and no copy is on its way past the node the shortcut leads to.
  ghost predicate AtNode(n: nat, hops: nat, s: Net, id: string, j: nat) {
    && 1 <= j <= hops && hops + 2 <= n
    && Grown(Line(n, hops), s)
    && CopyFor(s, LineAddr(j), hops - j)
    && (forall i: nat :: j <= i < n ==> LineAddr(i) in s.nodes && s.nodes[LineAddr(i)].seen == [])
    && (forall p :: p in s.flight ==> p.dest != LineAddr(hops + 1))
    && (forall e :: e in s.log ==> e.at != LineAddr(hops + 1))
  }

  /** What the delivery of a copy to a node that has not seen the query does. */
  lemma NewDelivery(s0: Net, s: Net, k: nat, at: Addr, id: string)
    requires Alone(s0, s, at, id) && k < |s.flight| && s.flight[k].dest in s.nodes && NormalizeAddr(at) == at
    requires s.nodes[s.flight[k].dest].seen == []
    ensures var p, t := s.flight[k], Step(s, Deliver(k, 0));
      && t.nodes.Keys == s.nodes.Keys && t.nodes[p.dest].seen == Mark(id)
      && (forall v :: v in s.nodes && v != p.dest ==> t.nodes[v] == s.nodes[v])
      && t.flight == Without(s.flight, k) + DeliveryCopies(s, p, 0)
      && (DeliveryCopies(s, p, 0) == if p.query.ttl == 0 then []
          else Packets(Targets(t.nodes[p.dest].neighbors, NO_SENDER), PassedOn(p.query), p.path + [p.dest], p.budget))
      && (forall e :: e in t.log ==> e in s.log || e.at == p.dest)
  {
    var p := s.flight[k];
    hide Handle, Keys, Without, Mark, Gained, Targets;
    DeliveryEffects(s, k, 0);
    HandleAlone(s.nodes[p.dest], p.query);
    HandleTargets(s.nodes[p.dest], p.query, 0);
  }

  lemma NewFlight(s0: Net, s: Net, k: nat, at: Addr, id: string)
    requires Alone(s0, s, at, id) && k < |s.flight| && s.flight[k].dest in s.nodes && NormalizeAddr(at) == at
    requires s.nodes[s.flight[k].dest].seen == []
    ensures var p, t := s.flight[k], Step(s, Deliver(k, 0));
      && (forall c :: c in t.flight ==> c in s.flight || (p.query.ttl > 0 && Link(t, p.dest, c.dest)))
      && (p.query.ttl > 0 ==> forall b :: Link(t, p.dest, b) && b != NO_SENDER ==> CopyFor(t, b, Clamp(p.query.ttl) - 1))
  {
    hide Alone, Step, DeliveryCopies, Without, Clamp;
    var p, t := s.flight[k], Step(s, Deliver(k, 0));
    NewDelivery(s0, s, k, at, id);
    WithoutMembers(s.flight, k);
    if p.query.ttl > 0 {
      var targets := Targets(t.nodes[p.dest].neighbors, NO_SENDER);
      var copies := DeliveryCopies(s, p, 0);
      forall c | c in copies
        ensures Link(t, p.dest, c.dest)
      {
        assert c.dest in targets;
      }
      forall b | Link(t, p.dest, b) && b != NO_SENDER
        ensures CopyFor(t, b, Clamp(p.query.ttl) - 1)
      {
        var i :| 0 <= i < |targets| && targets[i] == b;
        assert t.flight[|Without(s.flight, k)| + i] == copies[i];
      }
    }
  }

  // A copy on its way to a node, with so much time to live left.
  ghost predicate CopyFor(s: Net, dest: Addr, ttl: int) {
    exists k :: 0 <= k < |s.flight| && s.flight[k].dest == dest && s.flight[k].query.ttl == ttl
  }

  lemma LinkOf(n: nat, shortcut: nat, s: Net, id: string, j: nat, b: Addr)
    requires Alone(Line(n, shortcut), s, LineAddr(0), id) && j > 0 && Link(s, LineAddr(j), b)
    ensures b == LineAddr(j + 1) || b == LineAddr(0)
  {
    assert Gained(Line(n, shortcut), s, LineAddr(j), LineAddr(0));
    if b != LineAddr(0) {
      LineLinks(n, shortcut, LineAddr(j), b);
    }
  }

  // A packet that has reached node j, as AtNode says one does.
  ghost predicate Arriving(s: Net, k: nat, j: nat, ttl: int) {
    k < |s.flight| && s.flight[k].dest == LineAddr(j) && s.flight[k].query.ttl == ttl
  }

  /** Its delivery: the rest of the line has still not seen the query, and no copy goes to the node after the shortcut's. */
  lemma ArrivalKeeps(n: nat, hops: nat, s: Net, id: string, j: nat, k: nat)
    requires Alone(Line(n, hops), s, LineAddr(0), id) && AtNode(n, hops, s, id, j) && Arriving(s, k, j, hops - j)
    ensures var t := Step(s, Deliver(k, 0));
      && Alone(Line(n, hops), t, LineAddr(0), id) && Grown(Line(n, hops), t)
      && LineAddr(j) in t.nodes && t.nodes[LineAddr(j)].seen == Mark(id)
      && (forall i: nat :: j < i < n ==> LineAddr(i) in t.nodes && t.nodes[LineAddr(i)].seen == [])
      && (forall p :: p in t.flight ==> p.dest != LineAddr(hops + 1))
      && (forall e :: e in t.log ==> e.at != LineAddr(hops + 1))
  {
    var s0, t := Line(n, hops), Step(s, Deliver(k, 0));
    LineIsFresh(n, hops);
    LineAddrsDiffer();
    hide Line, Step, Alone, Grown, Link, Mark, CopyFor, LineAddr, Without, DeliveryCopies;
    DeliverAlone(s0, s, k, LineAddr(0), id);
    NewDelivery(s0, s, k, LineAddr(0), id);
    NewFlight(s0, s, k, LineAddr(0), id);
    StepGrows(s, Deliver(k, 0));
    GrownTransitive(s0, s, t);
    forall c | c in t.flight
      ensures c.dest != LineAddr(hops + 1)
    {
      if c !in s.flight {
        LinkOf(n, hops, t, id, j, c.dest);
      }
    }
  }

  /** A copy goes on to the next node of the line. */
  lemma ArrivalPasses(n: nat, hops: nat, s: Net, id: string, j: nat, k: nat)
    requires Alone(Line(n, hops), s, LineAddr(0), id) && AtNode(n, hops, s, id, j) && Arriving(s, k, j, hops - j)
    requires j < hops <= MAX_TTL
    ensures CopyFor(Step(s, Deliver(k, 0)), LineAddr(j + 1), hops - (j + 1))
  {
    var s0, t := Line(n, hops), Step(s, Deliver(k, 0));
    LineIsFresh(n, hops);
    LineAddrsDiffer();
    LineLinksThere(n, hops, j);
    hide Line, Step, Alone, Grown, Link, CopyFor, LineAddr;
    NewFlight(s0, s, k, LineAddr(0), id);
    StepGrows(s, Deliver(k, 0));
    GrownTransitive(s0, s, t);
    LinkGrown(s0, t, LineAddr(j), LineAddr(j + 1));
  }

  lemma AtNextNode(n: nat, hops: nat, s: Net, id: string, j: nat) returns (k: nat)
    requires Alone(Line(n, hops), s, LineAddr(0), id) && AtNode(n, hops, s, id, j) && 2 <= hops <= MAX_TTL
    ensures k < |s.flight|
    ensures j < hops ==> AtNode(n, hops, Step(s, Deliver(k, 0)), id, j + 1)
    ensures j == hops ==> Sealed(Line(n, hops), Step(s, Deliver(k, 0)), LineAddr(0), id, LineAddr(hops), LineAddr(hops + 1))
  {
    k :| 0 <= k < |s.flight| && s.flight[k].dest == LineAddr(j) && s.flight[k].query.ttl == hops - j;
    if j < hops {
      NextNode(n, hops, s, id, j, k);
    } else {
      SealsNode(n, hops, s, id, k);
    }
  }

  lemma NextNode(n: nat, hops: nat, s: Net, id: string, j: nat, k: nat)
    requires Alone(Line(n, hops), s, LineAddr(0), id) && AtNode(n, hops, s, id, j) && Arriving(s, k, j, hops - j)
    requires j < hops <= MAX_TTL
    ensures AtNode(n, hops, Step(s, Deliver(k, 0)), id, j + 1)
  {
    hide Line, Step, Alone, Grown, LineAddr, Mark, CopyFor, Arriving;
    ArrivalKeeps(n, hops, s, id, j, k);
    ArrivalPasses(n, hops, s, id, j, k);
  }

  lemma SealsNode(n: nat, hops: nat, s: Net, id: string, k: nat)
    requires Alone(Line(n, hops), s, LineAddr(0), id) && AtNode(n, hops, s, id, hops) && Arriving(s, k, hops, 0) && hops >= 2
    ensures Sealed(Line(n, hops), Step(s, Deliver(k, 0)), LineAddr(0), id, LineAddr(hops), LineAddr(hops + 1))
  {
    LineAddrsDiffer();
    hide Line, Step, Alone, Grown, LineAddr, Mark, CopyFor, Arriving;
    ArrivalKeeps(n, hops, s, id, hops, k);
    OnlyGateLists(n, hops);
  }

  lemma LineAddrsDiffer()
    ensures forall i: nat, j: nat :: LineAddr(i) == LineAddr(j) ==> i == j
    ensures forall i: nat :: LineAddr(i) != NO_SENDER
  {
  }

  lemma OnlyGateLists(n: nat, hops: nat)
    requires 2 <= hops && hops + 2 <= n
    ensures var s0 := Line(n, hops);
      forall v :: v in s0.nodes && v != LineAddr(hops) ==> LineAddr(hops + 1) !in Keys(s0.nodes[v].neighbors)
  {
    var s0 := Line(n, hops);
    forall v | v in s0.nodes && v != LineAddr(hops)
      ensures LineAddr(hops + 1) !in Keys(s0.nodes[v].neighbors)
    {
      if LineAddr(hops + 1) in Keys(s0.nodes[v].neighbors) {
        LineLinks(n, hops, v, LineAddr(hops + 1));
      }
    }
  }

  lemma AlongTheLine(n: nat, hops: nat, start: Net, actions: seq<Action>, id: string, j: nat) returns (more: seq<Action>)
    requires RunsAlone(Line(n, hops), start, actions, LineAddr(0), id) && AtNode(n, hops, Run(start, actions), id, j)
    requires 2 <= hops <= MAX_TTL
    ensures RunsAlone(Line(n, hops), start, actions + more, LineAddr(0), id)
    ensures Sealed(Line(n, hops), Run(start, actions + more), LineAddr(0), id, LineAddr(hops), LineAddr(hops + 1))
    decreases hops - j
  {
    hide Line, Run, Alone, QuietRun, ReliableRun, Sealed, Step;
    LineIsFresh(n, hops);
    var k := AtNextNode(n, hops, Run(start, actions), id, j);
    OneMore(Line(n, hops), start, actions, LineAddr(0), id, k);
    RunSnoc(start, actions, Deliver(k, 0));
    if j < hops {
      more := AlongTheLine(n, hops, start, actions + [Deliver(k, 0)], id, j + 1);
      assert actions + ([Deliver(k, 0)] + more) == actions + [Deliver(k, 0)] + more;
      more := [Deliver(k, 0)] + more;
    } else {
      more := [Deliver(k, 0)];
    }
  }

  /** The copies a query starts with. */
  lemma StartFlight(s0: Net, at: Addr, id: string, ttl: nat)
    requires at in s0.nodes && s0.flight == [] && ttl > 0
    ensures var t := Step(s0, Originate(at, id, ttl, 0));
      && (forall p :: p in t.flight ==> Link(s0, at, p.dest))
      && (forall b :: Link(s0, at, b) && b != NO_SENDER ==> CopyFor(t, b, Clamp(ttl) - 1))
  {
    hide Targets, Keys, Step, Clamp;
    StartParts(s0, at, id, ttl);
    var t := Step(s0, Originate(at, id, ttl, 0));
    var targets := Targets(s0.nodes[at].neighbors, NO_SENDER);
    forall p | p in t.flight
      ensures Link(s0, at, p.dest)
    {
      assert p.dest in targets;
    }
    forall b | Link(s0, at, b) && b != NO_SENDER
      ensures CopyFor(t, b, Clamp(ttl) - 1)
    {
      var i :| 0 <= i < |targets| && targets[i] == b;
      assert t.flight[i].dest == b;
    }
  }

  lemma StartParts(s0: Net, at: Addr, id: string, ttl: nat)
    requires at in s0.nodes && s0.flight == [] && ttl > 0
    ensures var t := Step(s0, Originate(at, id, ttl, 0));
      && t.flight == Packets(Targets(s0.nodes[at].neighbors, NO_SENDER), PassedOn(Query(id, at, ttl)), [at], Clamp(ttl))
      && (forall v :: v in s0.nodes && v != at ==> v in t.nodes && t.nodes[v] == s0.nodes[v])
  {
    hide Targets, Registered, Packets;
  }

  /** At the start no node of the line but the origin has seen the query, and no copy goes past the shortcut's node. */
  lemma StartOfLine(n: nat, ttl: nat, id: string)
    requires ttl >= 2 && n >= Clamp(ttl) + 2
    ensures var s0, t := Line(n, Clamp(ttl)), Step(Line(n, Clamp(ttl)), Originate(LineAddr(0), id, ttl, 0));
      && LineAddr(0) in s0.nodes
      && (forall i: nat :: 1 <= i < n ==> LineAddr(i) in t.nodes && t.nodes[LineAddr(i)].seen == [])
      && (forall b :: Link(s0, LineAddr(0), b) ==> b != LineAddr(Clamp(ttl) + 1))
  {
    var s0, at := Line(n, Clamp(ttl)), LineAddr(0);
    LineIsFresh(n, Clamp(ttl));
    LineAddrsDiffer();
    LineLinksThere(n, Clamp(ttl), 0);
    OnlyGateLists(n, Clamp(ttl));
    hide Line, Step, LineAddr, Packets, PassedOn;
    StartParts(s0, at, id, ttl);
    forall i: nat | 1 <= i < n
      ensures LineAddr(i) in s0.nodes && LineAddr(i) != at
    {
      LineLinksThere(n, Clamp(ttl), i);
    }
  }

  /** At the start a copy is on its way to node 1. */
  lemma StartsAtNode(n: nat, ttl: nat, id: string)
    requires ttl >= 2 && n >= Clamp(ttl) + 2
    ensures AtNode(n, Clamp(ttl), Step(Line(n, Clamp(ttl)), Originate(LineAddr(0), id, ttl, 0)), id, 1)
  {
    var hops := Clamp(ttl);
    var s0, at := Line(n, hops), LineAddr(0);
    LineIsFresh(n, hops);
    LineAddrsDiffer();
    StartOfLine(n, ttl, id);
    OriginateAlone(s0, at, id, ttl);
    LineLinksThere(n, hops, 0);
    hide Line, Step, LineAddr, CopyFor, Grown, Alone, Link;
    StepGrows(s0, Originate(at, id, ttl, 0));
    StartFlight(s0, at, id, ttl);
  }

  /** Even a node two links from the origin is not sure to be covered: with a time to live of at least 2, that holds in
      networks of at most min(ttl, 6) + 1 nodes and in no larger ones.  A copy that comes the long way round uses the query up
      at the node in between. */
  lemma TwoLinksExact(ttl: nat, n: nat)
    requires ttl >= 2 && n > 0
    ensures CoversWithin(ttl, n, 2) <==> n <= (if ttl > 6 then 6 else ttl) + 1
  {
    if n <= Clamp(ttl) + 1 {
      CoveredWithin(ttl, n, 2);
    } else {
      TwoLinksMissed(ttl, n);
    }
  }

  lemma TwoLinksMissed(ttl: nat, n: nat)
    requires ttl >= 2 && n >= Clamp(ttl) + 2
    ensures !CoversWithin(ttl, n, 2)
  {
    hide Line, Alone, CoversWithin, QuietRun, ReliableRun, AtNode, NoTrace, Room, Run, Step, Link;
    var hops := Clamp(ttl);
    var s0, at, missed := Line(n, hops), LineAddr(0), LineAddr(hops + 1);
    var start := Step(s0, Originate(at, "q", ttl, 0));
    LineIsFresh(n, hops);
    LineLinksThere(n, hops, 0);
    LineLinksThere(n, hops, hops);
    LineLinksThere(n, hops, hops + 1);
    FreshStart(s0, at, "q", ttl);
    StartsAtNode(n, ttl, "q");
    RunNothing(start);
    var first := AlongTheLine(n, hops, start, [], "q", 1);
    var rest := Drains(s0, start, [] + first, at, "q", LineAddr(hops), missed);
    var actions := [] + first + rest;
    assert Sealed(s0, Run(start, actions), at, "q", LineAddr(hops), missed);
    assert Run(start, actions) == Final(s0, at, "q", ttl, 0, actions);
    NotCovered(s0, at, "q", ttl, actions, [at, LineAddr(hops), missed], 2);
  }

  lemma RunNothing(s: Net)
    ensures Run(s, []) == s
  {
  }
}
