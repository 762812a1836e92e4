/** The server's index of peers and their files (server/registry.c). */
module Registries {
  import opened Addresses
  import opened OrderedMaps
  import opened Wrappers

  const MAX_PEERS: nat := 64
  const MAX_FILES_PER_PEER: nat := 256
  const MAX_IP_LEN: nat := 46

  datatype FileMeta = FileMeta(name: string, hash: nat, size: nat, owner: Addr)

  // What a slot holds besides the peer's address.
  datatype Record = Record(lastSeen: nat, files: seq<FileMeta>)

  type PeerSlot = Entry<Record>

  // A peer as it is told to others: its address and when it last registered.
  type PeerEntry = Entry<nat>

  function PeerOf(slot: PeerSlot): PeerEntry {
    Entry(slot.key, slot.value.lastSeen)
  }

  // The outcome of a registration: stored, refused for want of a slot, or not made for want of the lock.
  datatype Registering = Stored | NoRoom | NotLocked

  datatype Registration = Registration(owner: Addr, files: seq<FileMeta>, now: nat)

  /** The files as they are stored: at most 256, each owned by the registering peer whatever the request said. */
  function Stamped(files: seq<FileMeta>, owner: Addr): (s: seq<FileMeta>)
    ensures |s| == if |files| > 256 then 256 else |files|
    ensures forall i :: 0 <= i < |s| ==> s[i] == files[i].(owner := owner)
  {
    var n := if |files| > MAX_FILES_PER_PEER then MAX_FILES_PER_PEER else |files|;
    seq(n, i requires 0 <= i < n => files[i].(owner := owner))
  }

  function SlotFor(r: Registration): PeerSlot {
    Entry(r.owner, Record(r.now, Stamped(r.files, r.owner)))
  }

  datatype Criterion = ByName(term: string) | ByIdentity(hash: nat, size: nat) {
    predicate Matches(f: FileMeta) {
      match this
      case ByName(term) => Contains(f.name, term)
      case ByIdentity(hash, size) => f.hash == hash && f.size == size
    }
  }

  /** strstr finds the term. */
  predicate Contains(name: string, term: string) {
    exists i :: 0 <= i <= |name| && term <= name[i..]
  }

  /** The term stands somewhere in the name. */
  lemma {:induction false} ContainsIff(name: string, term: string)
    ensures Contains(name, term) <==> exists before: string, after: string :: name == before + term + after
  {
    if i :| 0 <= i <= |name| && term <= name[i..] {
      var rest := name[i..];
      assert rest == term + rest[|term|..];
      assert name == name[..i] + rest;
      assert name == name[..i] + term + rest[|term|..];
    }
    if before: string, after: string :| name == before + term + after {
      assert name[|before|..] == term + after;
    }
  }

  function Flatten(table: seq<PeerSlot>): seq<FileMeta> {
    if table == [] then [] else Flatten(table[..|table| - 1]) + table[|table| - 1].value.files
  }

  function Filter(files: seq<FileMeta>, c: Criterion): seq<FileMeta> {
    if files == [] then []
    else
      var last := files[|files| - 1];
      Filter(files[..|files| - 1], c) + (if c.Matches(last) then [last] else [])
  }

  lemma {:induction false} FilterAppend(a: seq<FileMeta>, b: seq<FileMeta>, c: Criterion)
    ensures Filter(a + b, c) == Filter(a, c) + Filter(b, c)
  {
    if b == [] {
      assert a + b == a;
    } else {
      FilterAppend(a, b[..|b| - 1], c);
      assert (a + b)[..|a + b| - 1] == a + b[..|b| - 1];
    }
  }

  lemma {:induction false} FilteredFrom(files: seq<FileMeta>, c: Criterion, f: FileMeta)
    ensures f in Filter(files, c) <==> f in files && c.Matches(f)
  {
    if files != [] {
      FilteredFrom(files[..|files| - 1], c, f);
    }
  }

  lemma FilterSnoc(files: seq<FileMeta>, j: nat, c: Criterion)
    requires j < |files|
    ensures Filter(files[..j + 1], c) == Filter(files[..j], c) + (if c.Matches(files[j]) then [files[j]] else [])
  {
    assert files[..j + 1][..j] == files[..j];
  }

  lemma FlattenSnoc(table: seq<PeerSlot>, i: nat)
    requires i < |table|
    ensures Flatten(table[..i + 1]) == Flatten(table[..i]) + table[i].value.files
  {
    assert table[..i + 1][..i] == table[..i];
  }

  /** Every matching file of the first slots comes before any other. */
  lemma {:induction false} FilterFlattenPrefix(table: seq<PeerSlot>, i: nat, c: Criterion)
    requires i <= |table|
    ensures Filter(Flatten(table[..i]), c) <= Filter(Flatten(table), c)
    decreases |table| - i
  {
    if i < |table| {
      FlattenSnoc(table, i);
      FilterAppend(Flatten(table[..i]), table[i].value.files, c);
      FilterFlattenPrefix(table, i + 1, c);
    } else {
      assert table[..i] == table;
    }
  }

  /** The peers in the table from the last slot to the first, without one of them. */
  function Newest(table: seq<PeerSlot>, exclude: Option<Addr>): seq<PeerEntry> {
    if table == [] then []
    else
      var last := table[|table| - 1];
      (if exclude == Some(last.key) then [] else [PeerOf(last)]) + Newest(table[..|table| - 1], exclude)
  }

  class Registry {
    const peers: array<PeerSlot>
    var peerCount: nat

    ghost predicate Valid()
      reads this
    {
      peers.Length == MAX_PEERS && peerCount <= MAX_PEERS
    }

    ghost function Contents(): seq<PeerSlot>
      requires Valid()
      reads this, peers
    {
      peers[..peerCount]
    }

    constructor ()
      ensures Valid() && fresh(peers) && Contents() == []
    {
      peers := new PeerSlot[MAX_PEERS](_ => Entry(Addr("", 0), Record(0, [])));
      peerCount := 0;
    }

    /** Replaces the files of a known peer in its slot, gives a new peer the next slot, and fails only on a new peer
        when all the slots are taken, or without the lock. */
    method RegisterPeer(owner: Addr, files: seq<FileMeta>, now: nat, locked: bool) returns (result: Registering)
      requires Valid() && |owner.ip| < MAX_IP_LEN
      modifies this, peers
      ensures Valid()
      ensures locked ==> Contents() == Upsert(old(Contents()), SlotFor(Registration(owner, files, now)), 64)
      ensures result == if !locked then NotLocked
                        else if owner in Keys(old(Contents())) || |old(Contents())| < MAX_PEERS then Stored else NoRoom
      ensures !result.Stored? ==> Contents() == old(Contents())
    {
      if !locked {
        return NotLocked;
      }
      SlotOf(Contents(), owner);
      var slot := FindSlot(owner);
      if slot == MAX_PEERS {
        if peerCount >= MAX_PEERS {
          return NoRoom;
        }
        slot := peerCount;
        peerCount := peerCount + 1;
      }
      var stored := StampFiles(files, owner);
      peers[slot] := Entry(owner, Record(now, stored));
      result := Stored;
    }

    /** The slot of a peer, or 64 when it has none. */
    method FindSlot(owner: Addr) returns (slot: nat)
      requires Valid()
      ensures slot == MAX_PEERS || slot < peerCount
      ensures Slot(Contents(), owner) == if slot == MAX_PEERS then peerCount else slot
    {
      slot := MAX_PEERS;
      var i := 0;
      while i < peerCount
        invariant i <= peerCount && slot == MAX_PEERS
        invariant forall k :: 0 <= k < i ==> peers[k].key != owner
      {
        if peers[i].key == owner {
          assert Contents()[i].key == owner;
          return i;
        }
        i := i + 1;
      }
    }

    method StampFiles(files: seq<FileMeta>, owner: Addr) returns (stored: seq<FileMeta>)
      ensures stored == Stamped(files, owner)
    {
      var copyCount := if |files| > MAX_FILES_PER_PEER then MAX_FILES_PER_PEER else |files|;
      stored := [];
      var i := 0;
      while i < copyCount
        invariant i <= copyCount && |stored| == i
        invariant forall k :: 0 <= k < i ==> stored[k] == files[k].(owner := owner)
      {
        stored := stored + [files[i].(owner := owner)];
        i := i + 1;
      }
    }

    /** registry_find_by_name and registry_find_by_identity: the first matching files, in slot order and, within a
        peer, in the order it registered them; none without the lock. */
    method Find(c: Criterion, capacity: nat, locked: bool) returns (results: seq<FileMeta>)
      requires Valid()
      ensures results == if locked then Take(Filter(Flatten(Contents()), c), capacity) else []
    {
      if !locked {
        return [];
      }
      hide Filter, Flatten, Take, Criterion.Matches;
      ghost var table := Contents();
      results := [];
      var i := 0;
      NothingFound(table, c, capacity);
      while i < peerCount && |results| < capacity
        invariant i <= peerCount && |results| <= capacity
        invariant results == Take(Filter(Flatten(table[..i]), c), capacity)
      {
        results := FindInSlot(peers[i].value.files, c, capacity, results);
        SlotTakes(table, i, c, capacity);
        i := i + 1;
      }
      PrefixTakes(table, i, c, capacity);
    }

    /** The inner loop: appends the matching files of one peer until the results are full. */
    method FindInSlot(files: seq<FileMeta>, c: Criterion, capacity: nat, found: seq<FileMeta>) returns (results: seq<FileMeta>)
      requires |found| < capacity
      ensures results == Take(found + Filter(files, c), capacity)
    {
      hide Criterion.Matches;
      results := found;
      var j := 0;
      while j < |files| && |results| < capacity
        invariant j <= |files| && |results| <= capacity
        invariant results == found + Filter(files[..j], c)
      {
        FilterSnoc(files, j, c);
        if c.Matches(files[j]) {
          results := results + [files[j]];
        }
        j := j + 1;
      }
      InnerLoopTakes(found, files, j, c, capacity);
    }

    /** registry_recent_peers_except: from the most recently added slot back; a peer that registers again keeps its
        slot, so this is order of first registration and not of last contact; none without the lock. */
    method RecentPeersExcept(exclude: Option<Addr>, capacity: nat, locked: bool) returns (recent: seq<PeerEntry>)
      requires Valid()
      ensures recent == if locked then Take(Newest(Contents(), exclude), capacity) else []
    {
      if !locked {
        return [];
      }
      hide Newest, Take, PeerOf;
      ghost var table := Contents();
      recent := [];
      var i := peerCount;
      assert table[..i] == table && [] + Newest(table, exclude) == Newest(table, exclude);
      while i > 0 && |recent| < capacity
        invariant 0 <= i <= peerCount && |recent| <= capacity
        invariant Newest(table, exclude) == recent + Newest(table[..i], exclude)
      {
        i := i - 1;
        NewestSnoc(table, i, exclude);
        JoinLeft(recent, if exclude == Some(table[i].key) then [] else [PeerOf(table[i])], Newest(table[..i], exclude));
        if exclude == Some(peers[i].key) {
          continue;
        }
        recent := recent + [PeerOf(peers[i])];
      }
      NewestTaken(table, i, exclude, recent, capacity);
    }
  }

  /** The inner loop stops at the end of the peer's files or when the results are full; either way it has taken what the
      whole of the peer's files would give. */
  lemma InnerLoopTakes(before: seq<FileMeta>, files: seq<FileMeta>, j: nat, c: Criterion, capacity: nat)
    requires j <= |files| && |before + Filter(files[..j], c)| <= capacity
    requires j == |files| || |before + Filter(files[..j], c)| == capacity
    ensures before + Filter(files[..j], c) == Take(before + Filter(files, c), capacity)
  {
    assert files == files[..j] + files[j..];
    FilterAppend(files[..j], files[j..], c);
    if j == |files| {
      assert files[..j] == files;
    }
  }

  lemma NothingFound(table: seq<PeerSlot>, c: Criterion, capacity: nat)
    ensures Take(Filter(Flatten(table[..0]), c), capacity) == []
  {}

  lemma NewestSnoc(table: seq<PeerSlot>, i: nat, exclude: Option<Addr>)
    requires i < |table|
    ensures Newest(table[..i + 1], exclude)
         == (if exclude == Some(table[i].key) then [] else [PeerOf(table[i])]) + Newest(table[..i], exclude)
  {
    assert table[..i + 1][..i] == table[..i];
  }

  lemma JoinLeft(a: seq<PeerEntry>, b: seq<PeerEntry>, c: seq<PeerEntry>)
    ensures a + (b + c) == (a + b) + c && a + [] == a
  {
  }

  lemma NewestTaken(table: seq<PeerSlot>, i: nat, exclude: Option<Addr>, recent: seq<PeerEntry>, capacity: nat)
    requires i <= |table| && |recent| <= capacity && (i == 0 || |recent| == capacity)
    ensures Take(recent + Newest(table[..i], exclude), capacity) == recent
  {
    if i == 0 {
      assert Newest(table[..0], exclude) == [];
    }
  }

  /** Continuing from the first slots with one more. */
  lemma SlotTakes(table: seq<PeerSlot>, i: nat, c: Criterion, capacity: nat)
    requires i < |table| && |Take(Filter(Flatten(table[..i]), c), capacity)| < capacity
    ensures Take(Take(Filter(Flatten(table[..i]), c), capacity) + Filter(table[i].value.files, c), capacity)
         == Take(Filter(Flatten(table[..i + 1]), c), capacity)
  {
    hide Filter, Flatten;
    FlattenSnoc(table, i);
    FilterAppend(Flatten(table[..i]), table[i].value.files, c);
  }

  /** The outer loop stops after the last slot or when the results are full. */
  lemma PrefixTakes(table: seq<PeerSlot>, i: nat, c: Criterion, capacity: nat)
    requires i <= |table| && (i == |table| || |Take(Filter(Flatten(table[..i]), c), capacity)| == capacity)
    ensures Take(Filter(Flatten(table[..i]), c), capacity) == Take(Filter(Flatten(table), c), capacity)
  {
    hide Filter, Flatten;
    FilterFlattenPrefix(table, i, c);
    if i == |table| {
      assert table[..i] == table;
    }
  }

  // --- The registry over a history of registrations ---

  function Slots(history: seq<Registration>): (s: seq<PeerSlot>)
    ensures |s| == |history| && forall i :: 0 <= i < |s| ==> s[i] == SlotFor(history[i])
  {
    seq(|history|, i requires 0 <= i < |history| => SlotFor(history[i]))
  }

  function Owners(history: seq<Registration>): (s: seq<Addr>)
    ensures |s| == |history| && forall i :: 0 <= i < |s| ==> s[i] == history[i].owner
  {
    seq(|history|, i requires 0 <= i < |history| => history[i].owner)
  }

  /** The contents after a history of registrations, refused ones included. */
  function Registered(history: seq<Registration>): seq<PeerSlot> {
    UpsertAll(Slots(history), MAX_PEERS)
  }

  /** The last registration of a peer in a history. */
  ghost predicate IsLatest(history: seq<Registration>, owner: Addr, k: nat) {
    && k < |history| && history[k].owner == owner
    && forall m :: k < m < |history| ==> history[m].owner != owner
  }

  /** A slot holds the time and the stamped files of its peer's last registration. */
  ghost predicate HoldsLatest(history: seq<Registration>, slot: PeerSlot) {
    exists k: nat :: IsLatest(history, slot.key, k) && slot.value == Record(history[k].now, Stamped(history[k].files, slot.key))
  }

  lemma {:induction false} LatestRegistration(history: seq<Registration>, owner: Addr, value: Record) returns (k: nat)
    requires Latest(Slots(history), owner) == Some(value)
    ensures IsLatest(history, owner, k) && value == SlotFor(history[k]).value
  {
    var n := |history| - 1;
    if history[n].owner == owner {
      k := n;
    } else {
      assert Slots(history)[..n] == Slots(history[..n]);
      k := LatestRegistration(history[..n], owner, value);
    }
  }

  /** After any history: one slot for each of the first 64 distinct peers, in the order they first registered; each slot
      holds what that peer registered last, and every file in it carries the peer's own address. */
  lemma RegistryRefinesMap(history: seq<Registration>)
    ensures var table := Registered(history);
      && Keys(table) == Take(Distinct(Owners(history)), 64)
      && NoDuplicates(Keys(table)) && |table| <= 64
      && (forall i :: 0 <= i < |table| ==> HoldsLatest(history, table[i]))
      && (forall i, j :: 0 <= i < |table| && 0 <= j < |table[i].value.files| ==>
            table[i].value.files[j].owner == table[i].key)
  {
    var table := Registered(history);
    TableIsOrderedMap(Slots(history), MAX_PEERS);
    assert Keys(Slots(history)) == Owners(history);
    forall i | 0 <= i < |table|
      ensures HoldsLatest(history, table[i])
    {
      var k := LatestRegistration(history, table[i].key, table[i].value);
    }
  }

  // Slots in strictly falling order, none of them the excluded peer's, whose peers are those told.
  ghost predicate TellsSlots(table: seq<PeerSlot>, exclude: Option<Addr>, told: seq<PeerEntry>, slots: seq<nat>) {
    && |slots| == |told|
    && (forall k :: 0 <= k < |slots| ==> slots[k] < |table| && told[k].key == table[slots[k]].key && told[k].value == table[slots[k]].value.lastSeen)
    && (forall j, k :: 0 <= j < k < |slots| ==> slots[j] > slots[k])
    && (forall i :: 0 <= i < |table| ==> (i in slots <==> exclude != Some(table[i].key)))
  }

  /** The peers told to a registering peer are exactly the others, one for each slot, the last slot first. */
  lemma {:induction false} NewestTellsTheOthers(table: seq<PeerSlot>, exclude: Option<Addr>) returns (slots: seq<nat>)
    ensures TellsSlots(table, exclude, Newest(table, exclude), slots)
  {
    slots := [];
    NewestUnfold(table, exclude);
    if table != [] {
      hide TellsSlots, Newest, PeerOf;
      var n := |table| - 1;
      var earlier := NewestTellsTheOthers(table[..n], exclude);
      slots := if exclude == Some(table[n].key) then earlier else [n] + earlier;
      TellsOneMore(table, exclude, Newest(table[..n], exclude), earlier);
    }
  }

  lemma {:induction false} NewestUnfold(table: seq<PeerSlot>, exclude: Option<Addr>)
    ensures table == [] ==> Newest(table, exclude) == []
    ensures table != [] ==>
      var last, earlier := table[|table| - 1], Newest(table[..|table| - 1], exclude);
      Newest(table, exclude) == if exclude == Some(last.key) then earlier else [PeerOf(last)] + earlier
  {
  }

  lemma TellsOneMore(table: seq<PeerSlot>, exclude: Option<Addr>, told: seq<PeerEntry>, slots: seq<nat>)
    requires table != [] && TellsSlots(table[..|table| - 1], exclude, told, slots)
    ensures if exclude == Some(table[|table| - 1].key) then TellsSlots(table, exclude, told, slots)
            else TellsSlots(table, exclude, [PeerOf(table[|table| - 1])] + told, [|table| - 1] + slots)
  {
    var n := |table| - 1;
    if exclude == Some(table[n].key) {
      assert n !in slots;
    } else {
      hide TellsSlots, PeerOf;
      TellsLast(table, exclude, told, slots);
    }
  }

  lemma TellsLast(table: seq<PeerSlot>, exclude: Option<Addr>, told: seq<PeerEntry>, slots: seq<nat>)
    requires table != [] && TellsSlots(table[..|table| - 1], exclude, told, slots) && exclude != Some(table[|table| - 1].key)
    ensures TellsSlots(table, exclude, [PeerOf(table[|table| - 1])] + told, [|table| - 1] + slots)
  {
    var n := |table| - 1;
    var after, all := [n] + slots, [PeerOf(table[n])] + told;
    InFront(n, slots);
    assert forall k :: 0 <= k < |slots| ==> slots[k] < n;
    forall k | 0 <= k < |after|
      ensures after[k] < |table| && all[k].key == table[after[k]].key && all[k].value == table[after[k]].value.lastSeen
      ensures forall j :: 0 <= j < k ==> after[j] > after[k]
    {
      if k > 0 {
        assert after[k] == slots[k - 1] && all[k] == told[k - 1];
      }
    }
  }

  lemma InFront(n: nat, slots: seq<nat>)
    ensures forall i :: i in [n] + slots <==> i == n || i in slots
  {
  }
}
