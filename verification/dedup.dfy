/** Duplicate suppression over a run (search/flood.c): while nothing expires and the tables have room, a node
    accepts a query at most once. */
module Dedup {
  import opened Addresses
  import opened SeenCaches
  import opened Neighbors
  import opened Flood
  import opened Hops

  ghost predicate InWindow(now: int, t0: int) {
    t0 <= now < t0 + 60
  }

  /** The step does not disturb the query with this key, started at t0: nobody starts the same id again, less than 60
      seconds have passed, and a node that receives the query has room to record it. */
  ghost predicate Quiet(s: Net, a: Action, key: string, t0: int) {
    match a
    case Originate(_, id, _, now) => Key(id) != key && InWindow(now, t0)
    case Deliver(k, now) =>
      InWindow(now, t0)
      && (k < |s.flight| && s.flight[k].dest in s.nodes && Key(s.flight[k].query.id) == key ==>
            Room(s.nodes[s.flight[k].dest].seen, now))
    case Lose(_) => true
    case Learn(_, _, _) => true
  }

  ghost predicate QuietRun(s: Net, actions: seq<Action>, key: string, t0: int) {
    forall n :: 0 <= n < |actions| ==> Quiet(Run(s, actions[..n]), actions[n], key, t0)
  }

  /** Node v has started or accepted the query. */
  ghost predicate AcceptedAt(s: Net, v: Addr, key: string) {
    exists i :: 0 <= i < |s.log| && s.log[i].at == v && Key(s.log[i].id) == key
  }

  /** Nothing in the network mentions the query yet. */
  ghost predicate NoTrace(s: Net, key: string) {
    && (forall p :: p in s.flight ==> Key(p.query.id) != key)
    && (forall v, e :: v in s.nodes && e in s.nodes[v].seen ==> Key(e.id) != key)
    && (forall i :: 0 <= i < |s.log| ==> Key(s.log[i].id) != key)
  }

  /** A node's table mentions the query exactly when the node has accepted it, in entries still good for the window. */
  ghost predicate MarkOk(seen: seq<Seen>, accepted: bool, key: string, t0: int) {
    && (forall e :: e in seen && Key(e.id) == key ==> accepted && e.expiry >= t0 + QUERY_EXPIRY_SEC)
    && (accepted ==> exists e :: e in seen && Key(e.id) == key)
  }

  ghost predicate DedupOk(s: Net, key: string, t0: int) {
    && (forall v :: v in s.nodes ==> MarkOk(s.nodes[v].seen, AcceptedAt(s, v, key), key, t0))
    && (forall i, j :: 0 <= i < j < |s.log| && Key(s.log[i].id) == key && Key(s.log[j].id) == key ==> s.log[i].at != s.log[j].at)
    && (forall i :: 0 <= i < |s.log| && Key(s.log[i].id) == key ==> s.log[i].at in s.nodes)
  }

  /** One check of a node's table, in the window. */
  lemma RegisterMarks(seen: seq<Seen>, accepted: bool, id: string, now: int, key: string, t0: int)
    requires MarkOk(seen, accepted, key, t0) && InWindow(now, t0) && Key(key) == key
    ensures Key(id) != key ==> MarkOk(Registered(seen, id, now), accepted, key, t0)
    ensures Key(id) == key ==> (IsNew(seen, id, now) <==> !accepted)
    ensures Key(id) == key && (accepted || Room(seen, now)) ==> MarkOk(Registered(seen, id, now), true, key, t0)
  {
    hide Live, Key, Knows;
    var live := Live(seen, now);
    KeyTwice(id);
    if accepted {
      var e :| e in seen && Key(e.id) == key;
      assert e in live;
      if Key(id) == key {
        KnowsById(live, e, id);
      }
      assert e in Registered(seen, id, now);
    }
    if !IsNew(seen, id, now) {
      var e := KnownEntry(live, id);
    }
    if IsNew(seen, id, now) && Room(seen, now) {
      var e := Seen(Key(id), now + QUERY_EXPIRY_SEC);
      assert e in Registered(seen, id, now);
    }
  }

  lemma AcceptedAppend(s: Net, t: Net, events: seq<Event>, v: Addr, key: string)
    requires t.log == s.log + events
    ensures AcceptedAt(t, v, key) <==> AcceptedAt(s, v, key) || exists e :: e in events && e.at == v && Key(e.id) == key
  {
    hide Key;
    if i :| 0 <= i < |s.log| && s.log[i].at == v && Key(s.log[i].id) == key {
      assert t.log[i] == s.log[i];
    }
    if e :| e in events && e.at == v && Key(e.id) == key {
      var j :| 0 <= j < |events| && events[j] == e;
      assert t.log[|s.log| + j] == e;
    }
    if i :| 0 <= i < |t.log| && t.log[i].at == v && Key(t.log[i].id) == key {
      if i < |s.log| {
        assert s.log[i] == t.log[i];
      } else {
        assert events[i - |s.log|] == t.log[i];
      }
    }
  }

  /** A node `at` checked `id` and logged the event if it was new; every other node stayed as it was. */
  lemma CheckStepDedup(s: Net, t: Net, at: Addr, id: string, now: int, events: seq<Event>, key: string, t0: int)
    requires DedupOk(s, key, t0) && Key(key) == key && InWindow(now, t0) && at in s.nodes
    requires t.nodes.Keys == s.nodes.Keys && t.log == s.log + events
    requires forall v :: v in s.nodes && v != at ==> t.nodes[v].seen == s.nodes[v].seen
    requires t.nodes[at].seen == Registered(s.nodes[at].seen, id, now)
    requires forall e :: e in events ==> e.at == at && e.id == id
    requires Key(id) == key ==> Room(s.nodes[at].seen, now) && |events| == (if IsNew(s.nodes[at].seen, id, now) then 1 else 0)
    ensures DedupOk(t, key, t0)
    ensures Key(id) == key ==> (AcceptedAt(s, at, key) <==> events == []) && AcceptedAt(t, at, key)
    ensures forall v :: v in s.nodes && (v != at || Key(id) != key) ==> (AcceptedAt(t, v, key) <==> AcceptedAt(s, v, key))
  {
    hide Registered, IsNew, Room, Key, AcceptedAt, MarkOk;
    RegisterMarks(s.nodes[at].seen, AcceptedAt(s, at, key), id, now, key, t0);
    forall v
      ensures AcceptedAt(t, v, key) <==> AcceptedAt(s, v, key) || exists e :: e in events && e.at == v && Key(e.id) == key
    {
      AcceptedAppend(s, t, events, v, key);
    }
    if events != [] {
      assert events[0] in events;
    }
    CheckLogDistinct(s, t, at, events, key, t0);
  }

  lemma CheckLogDistinct(s: Net, t: Net, at: Addr, events: seq<Event>, key: string, t0: int)
    requires DedupOk(s, key, t0) && at in s.nodes && t.log == s.log + events && t.nodes.Keys == s.nodes.Keys
    requires forall e :: e in events ==> e.at == at
    requires (forall e :: e in events ==> Key(e.id) != key) || (|events| <= 1 && (events != [] ==> !AcceptedAt(s, at, key)))
    ensures forall i, j :: 0 <= i < j < |t.log| && Key(t.log[i].id) == key && Key(t.log[j].id) == key ==> t.log[i].at != t.log[j].at
    ensures forall i :: 0 <= i < |t.log| && Key(t.log[i].id) == key ==> t.log[i].at in t.nodes
  {
    hide Key, MarkOk;
    forall i | |s.log| <= i < |t.log|
      ensures t.log[i] in events && t.log[i].at == at
    {
      assert t.log[i] == events[i - |s.log|];
    }
    forall i, j | 0 <= i < j < |t.log| && Key(t.log[i].id) == key && Key(t.log[j].id) == key
      ensures t.log[i].at != t.log[j].at
    {
      if j < |s.log| {
        assert t.log[i] == s.log[i] && t.log[j] == s.log[j];
      } else if i < |s.log| {
        assert t.log[i] == s.log[i];
        assert s.log[i].at == at ==> AcceptedAt(s, at, key);
      }
    }
    forall i | 0 <= i < |t.log| && Key(t.log[i].id) == key
      ensures t.log[i].at in t.nodes
    {
      if i < |s.log| {
        assert t.log[i] == s.log[i];
      }
    }
  }

  lemma HandleParts(n: Node, q: Query, now: int)
    ensures Handle(n, q, now).node.seen == Registered(n.seen, q.id, now)
    ensures Handle(n, q, now).accepted == IsNew(n.seen, q.id, now)
  {
  }

  lemma StepDedup(s: Net, a: Action, key: string, t0: int)
    requires DedupOk(s, key, t0) && Key(key) == key && Quiet(s, a, key, t0)
    ensures DedupOk(Step(s, a), key, t0)
  {
    hide Registered, IsNew, Room, Key, Handle, Without, Added, DedupOk;
    var t := Step(s, a);
    match a
    case Originate(at, id, ttl, now) =>
      if at in s.nodes {
        CheckStepDedup(s, t, at, id, now, [Event(at, id, [], Clamp(ttl))], key, t0);
      }
    case Deliver(k, now) =>
      if k < |s.flight| {
        if s.flight[k].dest in s.nodes {
          DeliveryDedup(s, k, now, key, t0);
        } else {
          SameLogDedup(s, t, key, t0);
        }
      }
    case Lose(k) =>
      SameLogDedup(s, t, key, t0);
    case Learn(at, peer, now) =>
      SameLogDedup(s, t, key, t0);
  }

  lemma SameLogDedup(s: Net, t: Net, key: string, t0: int)
    requires DedupOk(s, key, t0) && t.log == s.log && t.nodes.Keys == s.nodes.Keys
    requires forall v :: v in s.nodes ==> t.nodes[v].seen == s.nodes[v].seen
    ensures DedupOk(t, key, t0)
  {
    hide Key, MarkOk;
    forall v | v in s.nodes
      ensures AcceptedAt(t, v, key) == AcceptedAt(s, v, key)
    {
      assert t.log == s.log + [];
      AcceptedAppend(s, t, [], v, key);
    }
  }

  /** A delivered copy of the query is accepted exactly when the node had not accepted it before. */
  lemma DeliveryDedup(s: Net, k: nat, now: int, key: string, t0: int)
    requires DedupOk(s, key, t0) && Key(key) == key && Quiet(s, Deliver(k, now), key, t0)
    requires k < |s.flight| && s.flight[k].dest in s.nodes
    ensures DedupOk(DeliverStep(s, k, now), key, t0)
    ensures var p, t := s.flight[k], DeliverStep(s, k, now);
      && (Key(p.query.id) == key ==>
            (AcceptedAt(s, p.dest, key) <==> !Handle(s.nodes[p.dest], p.query, now).accepted) && AcceptedAt(t, p.dest, key))
      && (forall v :: v in s.nodes && (v != p.dest || Key(p.query.id) != key) ==>
            (AcceptedAt(t, v, key) <==> AcceptedAt(s, v, key)))
  {
    hide Registered, IsNew, Room, Key, Handle, Without, DedupOk, AcceptedAt;
    var p, t := s.flight[k], DeliverStep(s, k, now);
    HandleParts(s.nodes[p.dest], p.query, now);
    DeliveryEffects(s, k, now);
    CheckStepDedup(s, t, p.dest, p.query.id, now, DeliveryEvents(s, p, now), key, t0);
  }

  lemma FreshDedup(s: Net, key: string, t0: int)
    requires NoTrace(s, key)
    ensures DedupOk(s, key, t0)
    ensures forall v :: !AcceptedAt(s, v, key)
  {
    hide Key;
  }

  /** Starting the query at a node whose table has room establishes the invariant. */
  lemma OriginDedup(s: Net, at: Addr, id: string, ttl: nat, t0: int)
    requires NoTrace(s, Key(id)) && at in s.nodes && Room(s.nodes[at].seen, t0)
    ensures DedupOk(Step(s, Originate(at, id, ttl, t0)), Key(id), t0)
    ensures forall v :: AcceptedAt(Step(s, Originate(at, id, ttl, t0)), v, Key(id)) <==> v == at
  {
    var t := Step(s, Originate(at, id, ttl, t0));
    var events := [Event(at, id, [], Clamp(ttl))];
    FreshDedup(s, Key(id), t0);
    KeyTwice(id);
    FreshIsNew(s.nodes[at].seen, id, t0);
    hide Registered, IsNew, Room, Key, DedupOk, AcceptedAt, NoTrace;
    CheckStepDedup(s, t, at, id, t0, events, Key(id), t0);
    forall v
      ensures AcceptedAt(t, v, Key(id)) <==> v == at
    {
      AcceptedAppend(s, t, events, v, Key(id));
      assert events[0] in events;
    }
  }

  lemma FreshIsNew(seen: seq<Seen>, id: string, now: int)
    requires forall e :: e in seen ==> Key(e.id) != Key(id)
    ensures IsNew(seen, id, now)
  {
    if Knows(Live(seen, now), id) {
      var e := KnownEntry(Live(seen, now), id);
    }
  }

  lemma {:induction false} RunDedup(s: Net, actions: seq<Action>, key: string, t0: int)
    requires DedupOk(s, key, t0) && Key(key) == key && QuietRun(s, actions, key, t0)
    ensures DedupOk(Run(s, actions), key, t0)
  {
    if actions != [] {
      hide DedupOk, Quiet, Step;
      var before := actions[..|actions| - 1];
      QuietPrefix(s, actions, key, t0);
      RunDedup(s, before, key, t0);
      StepDedup(Run(s, before), actions[|actions| - 1], key, t0);
    }
  }

  lemma QuietPrefix(s: Net, actions: seq<Action>, key: string, t0: int)
    requires QuietRun(s, actions, key, t0) && actions != []
    ensures QuietRun(s, actions[..|actions| - 1], key, t0)
    ensures Quiet(Run(s, actions[..|actions| - 1]), actions[|actions| - 1], key, t0)
  {
    hide Quiet;
    var before := actions[..|actions| - 1];
    forall n | 0 <= n < |before|
      ensures Quiet(Run(s, before[..n]), before[n], key, t0)
    {
      assert before[..n] == actions[..n];
    }
  }

  /** With an id not seen before, started when the origin's table has room, and for 60 seconds in which the tables
      keep room: every node accepts the query at most once, whatever copies reach it, and the origin, which counts
      the start as its one acceptance, never answers or passes on its own query. */
  lemma AtMostOnce(s: Net, at: Addr, id: string, ttl: nat, t0: int, actions: seq<Action>)
    requires NoTrace(s, Key(id)) && at in s.nodes && Room(s.nodes[at].seen, t0)
    requires QuietRun(Step(s, Originate(at, id, ttl, t0)), actions, Key(id), t0)
    ensures var t := Run(Step(s, Originate(at, id, ttl, t0)), actions);
      && (forall i, j :: 0 <= i < j < |t.log| && Key(t.log[i].id) == Key(id) && Key(t.log[j].id) == Key(id) ==>
            t.log[i].at != t.log[j].at)
      && (forall i :: 0 <= i < |t.log| && Key(t.log[i].id) == Key(id) && t.log[i].at == at ==>
            t.log[i] == Event(at, id, [], Clamp(ttl)))
  {
    hide Step, Quiet, MarkOk, NoTrace, Key, Room;
    OriginDedup(s, at, id, ttl, t0);
    KeyTwice(id);
    var start := Step(s, Originate(at, id, ttl, t0));
    RunDedup(start, actions, Key(id), t0);
    LogGrows(start, actions);
    StartLogged(s, at, id, ttl, t0);
    var t := Run(start, actions);
    assert t.log[|s.log|] == Event(at, id, [], Clamp(ttl));
  }

  lemma StartLogged(s: Net, at: Addr, id: string, ttl: nat, t0: int)
    requires at in s.nodes
    ensures Step(s, Originate(at, id, ttl, t0)).log == s.log + [Event(at, id, [], Clamp(ttl))]
  {
  }

  lemma {:induction false} LogGrows(s: Net, actions: seq<Action>)
    ensures s.log <= Run(s, actions).log
  {
    if actions != [] {
      hide Handle, Registered, Added, Without, Packets, Targets;
      LogGrows(s, actions[..|actions| - 1]);
    }
  }
}
