/** The neighbour list of a node (search/neighbors.c). */
module Neighbors {
  import opened Addresses
  import opened Decimals
  import opened OrderedMaps

  const MAX_NEIGHBORS: nat := 16

  // A neighbour's entry: its address and when it was last seen.
  type Peer = Entry<int>

  /** The list after neighbors_add: the address is normalised first, and a new one is refused when the list is full. */
  function Added(peers: seq<Peer>, a: Addr, now: int): (after: seq<Peer>)
    ensures |peers| <= MAX_NEIGHBORS ==> |after| <= MAX_NEIGHBORS
  {
    Upsert(peers, Entry(NormalizeAddr(a), now), MAX_NEIGHBORS)
  }

  class NeighborList {
    const peers: array<Peer>
    var count: nat

    ghost predicate Valid()
      reads this
    {
      peers.Length == MAX_NEIGHBORS && count <= MAX_NEIGHBORS
    }

    ghost function Contents(): seq<Peer>
      requires Valid()
      reads this, peers
    {
      peers[..count]
    }

    constructor ()
      ensures Valid() && fresh(peers) && Contents() == []
    {
      peers := new Peer[MAX_NEIGHBORS](_ => Entry(Addr("", 0), 0));
      count := 0;
    }

    /** Refreshes the entry of a known address in place, appends a new one, and fails only on a new one with no room or
        without the lock. */
    method Add(a: Addr, now: int, locked: bool) returns (ok: bool)
      requires Valid()
      modifies this, peers
      ensures Valid() && Contents() == if locked then Added(old(Contents()), a, now) else old(Contents())
      ensures ok <==> locked && (NormalizeAddr(a) in Keys(old(Contents())) || |old(Contents())| < MAX_NEIGHBORS)
    {
      var n := NormalizeAddr(a);
      if !locked {
        return false;
      }
      SlotOf(Contents(), n);
      var i := 0;
      while i < count
        invariant Valid() && i <= count && Contents() == old(Contents())
        invariant forall k :: 0 <= k < i ==> peers[k].key != n
      {
        if peers[i].key == n {
          assert Slot(Contents(), n) == i;
          peers[i] := Entry(n, now);
          return true;
        }
        i := i + 1;
      }
      assert Slot(Contents(), n) == count;
      if count >= MAX_NEIGHBORS {
        return false;
      }
      peers[count] := Entry(n, now);
      count := count + 1;
      ok := true;
    }

    /** The first entries, or none without the lock. */
    method Snapshot(capacity: nat, locked: bool) returns (copied: seq<Peer>)
      requires Valid()
      ensures copied == if locked then Take(Contents(), capacity) else []
    {
      if !locked {
        return [];
      }
      copied := peers[..if count < capacity then count else capacity];
    }
  }

  /** No run of additions ever drops or reorders a neighbour: the earlier list of addresses is a prefix of the later. */
  lemma AddedKeepsAll(peers: seq<Peer>, a: Addr, now: int)
    ensures Keys(peers) <= Keys(Added(peers, a, now))
    ensures NormalizeAddr(a) in Keys(Added(peers, a, now)) <==> NormalizeAddr(a) in Keys(peers) || |peers| < MAX_NEIGHBORS
  {
    UpsertKeys(peers, Entry(NormalizeAddr(a), now), MAX_NEIGHBORS);
  }

  /** A mapped and a plain spelling of one address are one neighbour: adding either leaves the same list, and adding the
      second after the first only refreshes its entry. */
  lemma {:induction false} SpellingsShareSlot(peers: seq<Peer>, a: nat, b: nat, c: nat, d: nat, port: nat, now: int, later: int)
    requires a < 256 && b < 256 && c < 256 && d < 256
    ensures var plain := Addr(Print(a) + "." + Print(b) + "." + Print(c) + "." + Print(d), port);
            var mapped := Addr("::ffff:" + Print(a) + "." + Print(b) + "." + Print(c) + "." + Print(d), port);
      && Added(peers, mapped, now) == Added(peers, plain, now)
      && Keys(Added(Added(peers, mapped, now), plain, later)) == Keys(Added(peers, mapped, now))
      && (plain in Keys(Added(peers, mapped, now)) <==> plain in Keys(peers) || |peers| < 16)
  {
    var plain := Addr(Print(a) + "." + Print(b) + "." + Print(c) + "." + Print(d), port);
    NormalizeMapped(a, b, c, d);
    PlainStays(a, b, c, d);
    hide Print, Normalize;
    UpsertKeys(peers, Entry(plain, now), MAX_NEIGHBORS);
    UpsertKeys(Added(peers, plain, now), Entry(plain, later), MAX_NEIGHBORS);
    FullStays(peers, Entry(plain, now));
  }

  lemma {:induction false} PlainStays(a: nat, b: nat, c: nat, d: nat)
    requires a < 256 && b < 256 && c < 256 && d < 256
    ensures var plain := Print(a) + "." + Print(b) + "." + Print(c) + "." + Print(d);
            Normalize(plain) == plain
  {
    var plain := Print(a) + "." + Print(b) + "." + Print(c) + "." + Print(d);
    hide Print;
    assert IsDigit(plain[0]) by {
      assert plain[0] == Print(a)[0];
    }
  }

  lemma {:induction false} FullStays(peers: seq<Peer>, e: Peer)
    ensures |peers| >= MAX_NEIGHBORS && e.key !in Keys(peers) ==> |Upsert(peers, e, MAX_NEIGHBORS)| >= MAX_NEIGHBORS
  {
    SlotOf(peers, e.key);
  }

  /** An addition that finds its place leaves exactly one entry for the address, with the time of the addition, and all
      other entries as they were; one that does not leaves the list as it was. */
  lemma {:induction false} AddedEntry(peers: seq<Peer>, a: Addr, now: int)
    requires NoDuplicates(Keys(peers))
    ensures var key, after := NormalizeAddr(a), Added(peers, a, now);
      && NoDuplicates(Keys(after)) && |peers| <= |after| <= |peers| + 1
      && (key in Keys(after) ==> Entry(key, now) in after)
      && (forall i :: 0 <= i < |peers| && peers[i].key != key ==> after[i] == peers[i])
      && (key !in Keys(after) ==> after == peers && |peers| >= 16)
  {
    var key, after := NormalizeAddr(a), Added(peers, a, now);
    SlotOf(peers, key);
    UpsertKeys(peers, Entry(key, now), MAX_NEIGHBORS);
    var slot := Slot(peers, key);
    if slot < |peers| {
      assert after[slot] == Entry(key, now);
    } else if |peers| < MAX_NEIGHBORS {
      assert after[|peers|] == Entry(key, now);
    }
  }
}
