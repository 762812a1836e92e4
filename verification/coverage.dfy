/** Which nodes a flooded query reaches (search/flood.c). */
module Coverage {
  import opened Addresses
  import opened OrderedMaps
  import opened SeenCaches
  import opened Neighbors
  import opened Flood
  import opened Hops
  import opened Dedup

  ghost predicate IsCopy(p: Packet, key: string) {
    Key(p.query.id) == key
  }

  /** No copy of the query is lost. */
  ghost predicate Reliable(s: Net, a: Action, key: string) {
    a.Lose? && a.k < |s.flight| ==> !IsCopy(s.flight[a.k], key)
  }

  ghost predicate ReliableRun(s: Net, actions: seq<Action>, key: string) {
    forall n :: 0 <= n < |actions| ==> Reliable(Run(s, actions[..n]), actions[n], key)
  }

  /** A set of nodes that none of their neighbour lists leads out of. */
  ghost predicate Closed(s: Net, group: set<Addr>) {
    && group <= s.nodes.Keys
    && forall v, w :: v in group && Link(s, v, w) && w in s.nodes ==> w in group
  }

  ghost predicate AllAccepted(s: Net, group: set<Addr>, key: string) {
    forall v :: v in group ==> AcceptedAt(s, v, key)
  }

  ghost predicate Pending(s: Net, w: Addr, key: string) {
    exists p :: p in s.flight && IsCopy(p, key) && p.dest == w
  }

  /** A copy in flight has come along a simple path of nodes of the group that all accepted the query, and has the time
      to live that path has left it. */
  ghost predicate CopyOk(s: Net, p: Packet, key: string, group: set<Addr>, budget: nat) {
    && Linked(s, p.path, p.dest)
    && NoDuplicates(p.path)
    && (forall x :: x in p.path ==> x in group && AcceptedAt(s, x, key))
    && p.query.ttl + |p.path| == budget <= MAX_TTL
  }

  /** A node that accepted the query has got it to every live node it listed at the start: such a neighbour has
      accepted it or has a copy coming; or else the whole group has accepted it. */
  ghost predicate Settled(s0: Net, s: Net, v: Addr, key: string, group: set<Addr>) {
    || AllAccepted(s, group, key)
    || forall w :: Link(s0, v, w) && w in s.nodes ==> AcceptedAt(s, w, key) || Pending(s, w, key)
  }

  ghost predicate CoverOk(s0: Net, s: Net, key: string, group: set<Addr>, budget: nat) {
    && (forall p :: p in s.flight && IsCopy(p, key) ==> CopyOk(s, p, key, group, budget))
    && (forall v :: AcceptedAt(s, v, key) ==> Settled(s0, s, v, key, group))
  }

  lemma CopyOkGrown(s: Net, t: Net, p: Packet, key: string, group: set<Addr>, budget: nat)
    requires CopyOk(s, p, key, group, budget) && Grown(s, t)
    requires forall v :: AcceptedAt(s, v, key) ==> AcceptedAt(t, v, key)
    ensures CopyOk(t, p, key, group, budget)
  {
    hide Linked, Grown, AcceptedAt;
    LinkedGrown(s, t, p.path, p.dest);
  }

  /** How a step keeps the invariant: new copies are well formed, a copy disappears only when it reaches a node that has
      accepted the query or is not there, and a node that newly accepted it is settled. */
  lemma CoverOkStep(s0: Net, s: Net, t: Net, key: string, group: set<Addr>, budget: nat)
    requires CoverOk(s0, s, key, group, budget) && Grown(s, t)
    requires forall v :: AcceptedAt(s, v, key) ==> AcceptedAt(t, v, key)
    requires forall p :: p in t.flight && IsCopy(p, key) ==> p in s.flight || CopyOk(t, p, key, group, budget)
    requires forall p :: p in s.flight && IsCopy(p, key) && p !in t.flight ==> p.dest !in t.nodes || AcceptedAt(t, p.dest, key)
    requires forall v :: AcceptedAt(t, v, key) && !AcceptedAt(s, v, key) ==> Settled(s0, t, v, key, group)
    ensures CoverOk(s0, t, key, group, budget)
  {
    hide CopyOk, AcceptedAt, IsCopy, Link;
    forall p | p in t.flight && IsCopy(p, key)
      ensures CopyOk(t, p, key, group, budget)
    {
      if p in s.flight {
        CopyOkGrown(s, t, p, key, group, budget);
      }
    }
    forall v | AcceptedAt(t, v, key)
      ensures Settled(s0, t, v, key, group)
    {
      if AcceptedAt(s, v, key) {
        SettledStays(s0, s, t, v, key, group);
      }
    }
  }

  lemma SettledStays(s0: Net, s: Net, t: Net, v: Addr, key: string, group: set<Addr>)
    requires Settled(s0, s, v, key, group) && s.nodes.Keys == t.nodes.Keys
    requires forall v :: AcceptedAt(s, v, key) ==> AcceptedAt(t, v, key)
    requires forall p :: p in s.flight && IsCopy(p, key) && p !in t.flight ==> p.dest !in t.nodes || AcceptedAt(t, p.dest, key)
    ensures Settled(s0, t, v, key, group)
  {
    hide AcceptedAt, IsCopy, Link;
    if !AllAccepted(s, group, key) {
      forall w | Link(s0, v, w) && w in t.nodes
        ensures AcceptedAt(t, w, key) || Pending(t, w, key)
      {
        if Pending(s, w, key) {
          var p :| p in s.flight && IsCopy(p, key) && p.dest == w;
        }
      }
    }
  }

  // --- Counting ---

  ghost function Elements<T>(s: seq<T>): set<T> {
    set x | x in s
  }

  lemma {:induction false} DistinctCount<T>(s: seq<T>)
    requires forall i, j :: 0 <= i < j < |s| ==> s[i] != s[j]
    ensures |Elements(s)| == |s|
  {
    if s != [] {
      var init, last := s[..|s| - 1], s[|s| - 1];
      DistinctCount(init);
      assert Elements(s) == Elements(init) + {last};
      assert last !in Elements(init);
    }
  }

  lemma {:induction false} SubsetOfSameSize<T>(a: set<T>, b: set<T>)
    requires a <= b && |b| <= |a|
    ensures a == b
  {
    if x :| x in b && x !in a {
      SubsetCount(a, b - {x});
    }
  }

  lemma {:induction false} SubsetCount<T>(a: set<T>, b: set<T>)
    requires a <= b
    ensures |a| <= |b|
  {
    if x :| x in a {
      SubsetCount(a - {x}, b - {x});
    }
  }

  /** A simple path of as many nodes as the group can have, all in the group, is the whole group. */
  lemma PathIsGroup(path: seq<Addr>, last: Addr, group: set<Addr>)
    requires NoDuplicates(path) && last !in path && last in group && (forall x :: x in path ==> x in group)
    requires |group| <= |path| + 1
    ensures forall v :: v in group ==> v in path || v == last
  {
    var all := path + [last];
    DistinctCount(all);
    SubsetOfSameSize(Elements(all), group);
  }

  // --- The steps ---

  lemma ClosedEarlier(s: Net, t: Net, group: set<Addr>)
    requires Grown(s, t) && Closed(t, group)
    ensures Closed(s, group)
  {
    hide Link, Grown;
    assert s.nodes.Keys == t.nodes.Keys by {
      GrownKeys(s, t);
    }
    forall v, w | v in group && Link(s, v, w) && w in s.nodes
      ensures w in group
    {
      LinkGrown(s, t, v, w);
    }
  }

  lemma GrownKeys(s: Net, t: Net)
    requires Grown(s, t)
    ensures s.nodes.Keys == t.nodes.Keys
  {
  }

  /** A node of the network accepts a copy: the copies it sends are well formed. */
  lemma CopiesOk(s: Net, t: Net, p: Packet, now: int, key: string, group: set<Addr>, budget: nat, c: Packet)
    requires p.dest in s.nodes && p.dest in t.nodes && IsCopy(p, key) && CopyOk(t, p, key, group, budget)
    requires t.nodes[p.dest] == Handle(s.nodes[p.dest], p.query, now).node
    requires Handle(s.nodes[p.dest], p.query, now).accepted
    requires p.dest !in p.path && p.dest in group && AcceptedAt(t, p.dest, key)
    requires c in DeliveryCopies(s, p, now)
    ensures IsCopy(c, key) && CopyOk(t, c, key, group, budget)
  {
    hide AcceptedAt, Linked, Handle, Key, Clamp, Keys, Targets;
    HandleTargets(s.nodes[p.dest], p.query, now);
    PassedOnCounts(p.query, budget);
    assert c.dest in Handle(s.nodes[p.dest], p.query, now).targets;
    LinkedExtend(t, p.path, p.dest, c.dest);
  }

  lemma PassedOnCounts(q: Query, budget: nat)
    requires q.ttl <= budget <= MAX_TTL
    ensures q.ttl > 0 ==> PassedOn(q) == q.(ttl := q.ttl - 1)
  {
  }

  /** A newly accepting node is settled: it sends a copy to every live neighbour, or, with no time to live left, the
      path to it already runs through the whole group. */
  lemma AccepterSettled(s0: Net, s: Net, t: Net, p: Packet, now: int, key: string, group: set<Addr>, budget: nat)
    requires p.dest in s.nodes && p.dest in t.nodes && IsCopy(p, key) && CopyOk(t, p, key, group, budget)
    requires Handle(s.nodes[p.dest], p.query, now).accepted && Grown(s0, s) && Grown(s, t)
    requires t.nodes[p.dest] == Handle(s.nodes[p.dest], p.query, now).node
    requires p.dest !in p.path && p.dest in group && AcceptedAt(t, p.dest, key)
    requires |group| <= budget + 1 && NO_SENDER !in s0.nodes
    requires forall c :: c in DeliveryCopies(s, p, now) ==> c in t.flight
    ensures Settled(s0, t, p.dest, key, group)
  {
    hide AcceptedAt, Linked, Handle, Key, Grown;
    HandleTargets(s.nodes[p.dest], p.query, now);
    GrownKeys(s0, s);
    GrownKeys(s, t);
    if p.query.ttl == 0 {
      PathIsGroup(p.path, p.dest, group);
    } else {
      forall w | Link(s0, p.dest, w) && w in t.nodes
        ensures Pending(t, w, key)
      {
        GrownTransitive(s0, s, t);
        LinkGrown(s0, t, p.dest, w);
        CopyTo(s, p, now, w, key);
      }
    }
  }

  lemma CopyTo(s: Net, p: Packet, now: int, w: Addr, key: string)
    requires p.dest in s.nodes && IsCopy(p, key) && p.query.ttl > 0 && w != NO_SENDER
    requires Handle(s.nodes[p.dest], p.query, now).accepted
    requires w in Keys(Handle(s.nodes[p.dest], p.query, now).node.neighbors)
    ensures exists c :: c in DeliveryCopies(s, p, now) && IsCopy(c, key) && c.dest == w
  {
    hide Handle, Key;
    var h := Handle(s.nodes[p.dest], p.query, now);
    HandleTargets(s.nodes[p.dest], p.query, now);
    assert w in h.targets;
    var i :| 0 <= i < |h.targets| && h.targets[i] == w;
    var copies := DeliveryCopies(s, p, now);
    assert copies[i].dest == w && IsCopy(copies[i], key);
  }

  /** The situation in which a step is taken: the run started from s0 at rest as far as this query is concerned. */
  ghost predicate Context(s0: Net, s: Net, key: string, t0: int, group: set<Addr>, budget: nat) {
    && Grown(s0, s) && Closed(s, group) && NO_SENDER !in s0.nodes
    && |group| <= budget + 1 && Key(key) == key
    && DedupOk(s, key, t0)
  }

  lemma DeliveryCover(s0: Net, s: Net, k: nat, now: int, key: string, t0: int, group: set<Addr>, budget: nat)
    requires Context(s0, s, key, t0, group, budget) && CoverOk(s0, s, key, group, budget)
    requires Quiet(s, Deliver(k, now), key, t0) && k < |s.flight| && s.flight[k].dest in s.nodes
    ensures CoverOk(s0, DeliverStep(s, k, now), key, group, budget)
  {
    var p, t := s.flight[k], DeliverStep(s, k, now);
    assert t == Step(s, Deliver(k, now));
    StepGrows(s, Deliver(k, now));
    assert Key(p.query.id) == key <==> IsCopy(p, key);
    hide Handle, DeliverStep, Step, Link, Linked, DedupOk, AcceptedAt, Grown, CopyOk, Settled, Quiet, Without, IsCopy, Key, DeliveryCopies,
         DeliveryEvents;
    DeliveryDedup(s, k, now, key, t0);
    DeliveryEffects(s, k, now);
    WithoutMembers(s.flight, k);
    DeliveryLog(s, t, DeliveryEvents(s, p, now), key);
    GrownKeys(s, t);
    if IsCopy(p, key) {
      if Handle(s.nodes[p.dest], p.query, now).accepted {
        AcceptedDelivery(s0, s, t, k, now, key, group, budget);
      } else {
        RefusedSendsNothing(s, p, now);
        CoverOkStep(s0, s, t, key, group, budget);
      }
    } else {
      OtherCopies(s, p, now, key);
      CoverOkStep(s0, s, t, key, group, budget);
    }
  }

  lemma DeliveryLog(s: Net, t: Net, events: seq<Event>, key: string)
    requires t.log == s.log + events
    ensures forall v :: AcceptedAt(s, v, key) ==> AcceptedAt(t, v, key)
  {
    forall v | AcceptedAt(s, v, key)
      ensures AcceptedAt(t, v, key)
    {
      AcceptedAppend(s, t, events, v, key);
    }
  }

  lemma RefusedSendsNothing(s: Net, p: Packet, now: int)
    requires p.dest in s.nodes && !Handle(s.nodes[p.dest], p.query, now).accepted
    ensures DeliveryCopies(s, p, now) == []
  {
    hide Handle;
    HandleTargets(s.nodes[p.dest], p.query, now);
  }

  lemma OtherCopies(s: Net, p: Packet, now: int, key: string)
    requires p.dest in s.nodes && !IsCopy(p, key)
    ensures forall c :: c in DeliveryCopies(s, p, now) ==> !IsCopy(c, key)
  {
    hide Handle, Key;
  }

  lemma AcceptedDelivery(s0: Net, s: Net, t: Net, k: nat, now: int, key: string, group: set<Addr>, budget: nat)
    requires k < |s.flight| && s.flight[k].dest in s.nodes && t == DeliverStep(s, k, now)
    requires CoverOk(s0, s, key, group, budget) && Grown(s0, s) && Grown(s, t) && Closed(s, group)
    requires NO_SENDER !in s0.nodes && |group| <= budget + 1
    requires IsCopy(s.flight[k], key) && Handle(s.nodes[s.flight[k].dest], s.flight[k].query, now).accepted
    requires !AcceptedAt(s, s.flight[k].dest, key) && AcceptedAt(t, s.flight[k].dest, key)
    requires forall v :: AcceptedAt(s, v, key) ==> AcceptedAt(t, v, key)
    requires forall v :: v in s.nodes && v != s.flight[k].dest ==> (AcceptedAt(t, v, key) <==> AcceptedAt(s, v, key))
    requires forall v :: AcceptedAt(t, v, key) ==> v in s.nodes
    ensures CoverOk(s0, t, key, group, budget)
  {
    var p := s.flight[k];
    var copies := DeliveryCopies(s, p, now);
    hide Handle, DeliverStep, Link, AcceptedAt, Grown, Settled, Without, IsCopy, Key, DeliveryCopies, Linked;
    assert CopyOk(s, p, key, group, budget);
    DeliveryEffects(s, k, now);
    WithoutMembers(s.flight, k);
    CopyOkGrown(s, t, p, key, group, budget);
    DestinationInGroup(s, p, group);
    forall c | c in copies
      ensures IsCopy(c, key) && CopyOk(t, c, key, group, budget)
    {
      CopiesOk(s, t, p, now, key, group, budget, c);
    }
    AccepterSettled(s0, s, t, p, now, key, group, budget);
    CoverOkStep(s0, s, t, key, group, budget);
  }

  lemma DestinationInGroup(s: Net, p: Packet, group: set<Addr>)
    requires Closed(s, group) && Linked(s, p.path, p.dest) && p.dest in s.nodes
    requires forall x :: x in p.path ==> x in group
    ensures p.dest in group
  {
    hide Link;
    assert p.path[|p.path| - 1] in p.path;
  }

  lemma StepCover(s0: Net, s: Net, a: Action, key: string, t0: int, group: set<Addr>, budget: nat)
    requires Context(s0, s, key, t0, group, budget) && CoverOk(s0, s, key, group, budget)
    requires Quiet(s, a, key, t0) && Reliable(s, a, key)
    ensures CoverOk(s0, Step(s, a), key, group, budget)
  {
    var t := Step(s, a);
    StepGrows(s, a);
    GrownKeys(s, t);
    match a
    case Originate(at, id, ttl, now) =>
      if at in s.nodes {
        hide Handle, OriginateStep, Link, Linked, DedupOk, AcceptedAt, Grown, CopyOk, Settled, Key, OriginCopies;
        OriginateEffects(s, at, id, ttl, now);
        OtherStart(s, t, at, id, ttl, key);
        CoverOkStep(s0, s, t, key, group, budget);
      }
    case Deliver(k, now) =>
      if k < |s.flight| {
        hide Handle, DedupOk, CoverOk, Grown, Closed, Quiet, IsCopy, Key;
        if s.flight[k].dest in s.nodes {
          DeliveryCover(s0, s, k, now, key, t0, group, budget);
        } else {
          UndeliveredStep(s, k, now);
          WithoutMembers(s.flight, k);
          QuietLog(s, t, key);
          CoverOkStep(s0, s, t, key, group, budget);
        }
      }
    case Lose(k) =>
      if k < |s.flight| {
        hide Handle, DedupOk, CoverOk, Grown, Closed, Quiet, IsCopy, Key, Without;
        WithoutMembers(s.flight, k);
        QuietLog(s, t, key);
        CoverOkStep(s0, s, t, key, group, budget);
      }
    case Learn(at, peer, now) =>
      hide Handle, DedupOk, CoverOk, Grown, Closed, Quiet, IsCopy, Key, Added;
      QuietLog(s, t, key);
      CoverOkStep(s0, s, t, key, group, budget);
  }

  lemma QuietLog(s: Net, t: Net, key: string)
    requires t.log == s.log
    ensures forall v :: AcceptedAt(t, v, key) <==> AcceptedAt(s, v, key)
  {
  }

  lemma OtherStart(s: Net, t: Net, at: Addr, id: string, ttl: nat, key: string)
    requires at in s.nodes && Key(id) != key && t.log == s.log + [Event(at, id, [], Clamp(ttl))]
    ensures forall v :: AcceptedAt(t, v, key) <==> AcceptedAt(s, v, key)
    ensures forall c :: c in OriginCopies(s, at, id, ttl) ==> !IsCopy(c, key)
  {
    hide Key;
    forall v
      ensures AcceptedAt(t, v, key) <==> AcceptedAt(s, v, key)
    {
      AcceptedAppend(s, t, [Event(at, id, [], Clamp(ttl))], v, key);
    }
  }

  lemma {:induction false} RunCover(s0: Net, s: Net, actions: seq<Action>, key: string, t0: int, group: set<Addr>, budget: nat)
    requires Context(s0, s, key, t0, group, budget) && CoverOk(s0, s, key, group, budget)
    requires QuietRun(s, actions, key, t0) && ReliableRun(s, actions, key) && Closed(Run(s, actions), group)
    ensures CoverOk(s0, Run(s, actions), key, group, budget)
  {
    if actions != [] {
      hide DedupOk, Quiet, Reliable, Step, CoverOk, Closed, Grown, Key;
      var before, a := actions[..|actions| - 1], actions[|actions| - 1];
      QuietPrefix(s, actions, key, t0);
      ReliablePrefix(s, actions, key);
      StepGrows(Run(s, before), a);
      ClosedEarlier(Run(s, before), Run(s, actions), group);
      RunCover(s0, s, before, key, t0, group, budget);
      RunDedup(s, before, key, t0);
      RunGrows(s, before);
      GrownTransitive(s0, s, Run(s, before));
      StepCover(s0, Run(s, before), a, key, t0, group, budget);
    }
  }

  lemma ReliablePrefix(s: Net, actions: seq<Action>, key: string)
    requires ReliableRun(s, actions, key) && actions != []
    ensures ReliableRun(s, actions[..|actions| - 1], key)
    ensures Reliable(Run(s, actions[..|actions| - 1]), actions[|actions| - 1], key)
  {
    hide Reliable;
    var before := actions[..|actions| - 1];
    forall n | 0 <= n < |before|
      ensures Reliable(Run(s, before[..n]), before[n], key)
    {
      assert before[..n] == actions[..n];
    }
  }

  /** The start of the query establishes the invariant. */
  lemma OriginCover(s0: Net, at: Addr, id: string, ttl: nat, t0: int, group: set<Addr>)
    requires NoTrace(s0, Key(id)) && at in s0.nodes && Room(s0.nodes[at].seen, t0)
    requires at in group && |group| <= Clamp(ttl) + 1 && NO_SENDER !in s0.nodes
    ensures CoverOk(s0, Step(s0, Originate(at, id, ttl, t0)), Key(id), group, Clamp(ttl))
  {
    var t := Step(s0, Originate(at, id, ttl, t0));
    var copies := OriginCopies(s0, at, id, ttl);
    var key := Key(id);
    OriginDedup(s0, at, id, ttl, t0);
    OriginateEffects(s0, at, id, ttl, t0);
    StepGrows(s0, Originate(at, id, ttl, t0));
    NoCopies(s0, key);
    hide Step, OriginateStep, Key, AcceptedAt, DedupOk, Grown, NoTrace;
    GrownKeys(s0, t);
    OriginCopiesOk(s0, t, at, id, ttl, group);
    if ttl == 0 {
      PathIsGroup([], at, group);
    } else {
      forall w | Link(s0, at, w) && w in t.nodes
        ensures Pending(t, w, key)
      {
        OriginCopyTo(s0, t, at, id, ttl, w);
      }
    }
  }

  lemma OriginCopiesOk(s0: Net, t: Net, at: Addr, id: string, ttl: nat, group: set<Addr>)
    requires at in s0.nodes && at in t.nodes && t.nodes[at].neighbors == s0.nodes[at].neighbors
    requires at in group && AcceptedAt(t, at, Key(id))
    ensures forall c :: c in OriginCopies(s0, at, id, ttl) ==> IsCopy(c, Key(id)) && CopyOk(t, c, Key(id), group, Clamp(ttl))
  {
    hide Key, AcceptedAt, Keys;
    forall c | c in OriginCopies(s0, at, id, ttl)
      ensures IsCopy(c, Key(id)) && CopyOk(t, c, Key(id), group, Clamp(ttl))
    {
      assert c.dest in Targets(s0.nodes[at].neighbors, NO_SENDER);
    }
  }

  lemma OriginCopyTo(s0: Net, t: Net, at: Addr, id: string, ttl: nat, w: Addr)
    requires at in s0.nodes && ttl > 0 && Link(s0, at, w) && w != NO_SENDER
    requires forall c :: c in OriginCopies(s0, at, id, ttl) ==> c in t.flight
    ensures Pending(t, w, Key(id))
  {
    hide Key, Keys;
    var targets, copies := Targets(s0.nodes[at].neighbors, NO_SENDER), OriginCopies(s0, at, id, ttl);
    assert w in targets;
    var i :| 0 <= i < |targets| && targets[i] == w;
    assert copies[i] in copies;
  }

  lemma NoCopies(s: Net, key: string)
    requires NoTrace(s, key)
    ensures forall p :: p in s.flight ==> !IsCopy(p, key)
  {
  }

  /** A walk over the neighbour lists of s, through live nodes. */
  ghost predicate Walk(s: Net, walk: seq<Addr>) {
    && walk != []
    && (forall i :: 0 <= i < |walk| ==> walk[i] in s.nodes)
    && (forall i :: 0 <= i < |walk| - 1 ==> Link(s, walk[i], walk[i + 1]))
  }

  lemma {:induction false} WalkAccepted(s0: Net, t: Net, walk: seq<Addr>, key: string, group: set<Addr>, budget: nat)
    requires Walk(s0, walk) && CoverOk(s0, t, key, group, budget) && Grown(s0, t) && Closed(t, group)
    requires forall p :: p in t.flight ==> !IsCopy(p, key)
    requires walk[0] in group && AcceptedAt(t, walk[0], key)
    ensures walk[|walk| - 1] in group && AcceptedAt(t, walk[|walk| - 1], key)
  {
    hide AcceptedAt, Link, CopyOk, IsCopy, Grown;
    GrownKeys(s0, t);
    if |walk| > 1 {
      var init, v, w := walk[..|walk| - 1], walk[|walk| - 2], walk[|walk| - 1];
      WalkAccepted(s0, t, init, key, group, budget);
      assert init[|init| - 1] == v && Link(s0, walk[|walk| - 2], walk[|walk| - 2 + 1]);
      LinkGrown(s0, t, v, w);
      assert Settled(s0, t, v, key, group);
    }
  }

  /** A fresh query, started at a node whose table has room, ran until no copy of it was in flight; no copy was lost,
      nothing expired and tables kept room. */
  ghost predicate RanOut(s0: Net, at: Addr, id: string, ttl: nat, t0: int, actions: seq<Action>) {
    && NoTrace(s0, Key(id)) && at in s0.nodes && Room(s0.nodes[at].seen, t0) && NO_SENDER !in s0.nodes
    && var start := Step(s0, Originate(at, id, ttl, t0));
    && QuietRun(start, actions, Key(id), t0) && ReliableRun(start, actions, Key(id))
    && (forall p :: p in Run(start, actions).flight ==> !IsCopy(p, Key(id)))
  }

  /** The network at the end of such a run. */
  function Final(s0: Net, at: Addr, id: string, ttl: nat, t0: int, actions: seq<Action>): Net {
    Run(Step(s0, Originate(at, id, ttl, t0)), actions)
  }

  /** Coverage.  Start a fresh query at a node of a group that the neighbour lists never lead out of, with at most
      min(ttl, 6) + 1 nodes in the group.  If no copy is lost, nothing expires and tables keep room, then once no copy
      is in flight every node that could be reached over the neighbour lists of the start has accepted the query,
      whatever the order of deliveries, the other traffic, and the neighbours learnt meanwhile. */
  lemma FloodCovers(s0: Net, at: Addr, id: string, ttl: nat, t0: int, actions: seq<Action>, group: set<Addr>, walk: seq<Addr>)
    requires RanOut(s0, at, id, ttl, t0, actions) && Closed(Final(s0, at, id, ttl, t0, actions), group)
    requires at in group && |group| <= Clamp(ttl) + 1
    requires Walk(s0, walk) && walk[0] == at
    ensures AcceptedAt(Final(s0, at, id, ttl, t0, actions), walk[|walk| - 1], Key(id))
  {
    hide Step, CoverOk, DedupOk, Closed, Grown, NoTrace, Quiet, Reliable, IsCopy, Walk, Key, Room, AcceptedAt;
    var start, key := Step(s0, Originate(at, id, ttl, t0)), Key(id);
    var t := Run(start, actions);
    KeyTwice(id);
    OriginDedup(s0, at, id, ttl, t0);
    OriginCover(s0, at, id, ttl, t0, group);
    StepGrows(s0, Originate(at, id, ttl, t0));
    RunGrows(start, actions);
    GrownTransitive(s0, start, t);
    ClosedEarlier(start, t, group);
    RunCover(s0, start, actions, key, t0, group, Clamp(ttl));
    LogGrows(start, actions);
    AcceptedLater(start, t, at, key);
    WalkAccepted(s0, t, walk, key, group, Clamp(ttl));
  }

  /** A network of at most min(ttl, 6) + 1 nodes needs no closed group: every reachable node accepts the query. */
  lemma SmallNetworkCovered(s0: Net, at: Addr, id: string, ttl: nat, t0: int, actions: seq<Action>, walk: seq<Addr>)
    requires RanOut(s0, at, id, ttl, t0, actions) && |s0.nodes| <= Clamp(ttl) + 1
    requires Walk(s0, walk) && walk[0] == at
    ensures AcceptedAt(Final(s0, at, id, ttl, t0, actions), walk[|walk| - 1], Key(id))
  {
    hide Step, Run, Walk, NoTrace, QuietRun, ReliableRun, IsCopy, Room, Key, AcceptedAt;
    StepGrows(s0, Originate(at, id, ttl, t0));
    RunGrows(Step(s0, Originate(at, id, ttl, t0)), actions);
    var group := s0.nodes.Keys;
    KeysCount(s0.nodes);
    FloodCovers(s0, at, id, ttl, t0, actions, group, walk);
  }

  lemma KeysCount<K, V>(m: map<K, V>)
    ensures |m.Keys| == |m|
  {
  }

  lemma AcceptedLater(s: Net, t: Net, v: Addr, key: string)
    requires s.log <= t.log && AcceptedAt(s, v, key)
    ensures AcceptedAt(t, v, key)
  {
    var i :| 0 <= i < |s.log| && s.log[i].at == v && Key(s.log[i].id) == key;
    assert t.log[i] == s.log[i];
  }
}
