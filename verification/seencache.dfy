/** The expiring cache of seen query ids (search/flood.c). */
module SeenCaches {
  const MAX_SEEN_QUERIES: nat := 1000
  const QUERY_EXPIRY_SEC: nat := 60
  const ID_LENGTH: nat := 16

  datatype Seen = Seen(id: string, expiry: int)

  /** The part of an id that is stored and compared: its first 16 characters. */
  function Key(id: string): string {
    if |id| <= ID_LENGTH then id else id[..ID_LENGTH]
  }

  /** Ids count as the same when their first 16 characters are. */
  lemma {:induction false} KeysAgree(a: string, b: string)
    ensures Key(a) == Key(b) <==> a == b || (|a| >= 16 && |b| >= 16 && a[..16] == b[..16])
  {
  }

  /** The entries that have not expired, in order. */
  function Live(entries: seq<Seen>, now: int): (live: seq<Seen>)
    ensures |live| <= |entries|
    ensures forall e :: e in live <==> e in entries && e.expiry > now
  {
    if entries == [] then []
    else
      var last := entries[|entries| - 1];
      Live(entries[..|entries| - 1], now) + (if last.expiry > now then [last] else [])
  }

  lemma LiveOfNone(now: int)
    ensures Live([], now) == []
  {
  }

  lemma LiveSnoc(entries: seq<Seen>, i: nat, now: int)
    requires i < |entries|
    ensures Live(entries[..i + 1], now)
         == Live(entries[..i], now) + (if entries[i].expiry > now then [entries[i]] else [])
  {
    assert entries[..i + 1][..i] == entries[..i];
  }

  /** What is live of the first i entries. */
  ghost predicate LiveOfFirst(entries: seq<Seen>, i: nat, now: int, kept: seq<Seen>) {
    i <= |entries| && kept == Live(entries[..i], now)
  }

  lemma NoneLive(entries: seq<Seen>, now: int)
    ensures LiveOfFirst(entries, 0, now, [])
  {
    LiveOfNone(now);
    assert entries[..0] == [];
  }

  lemma OneMoreLive(entries: seq<Seen>, i: nat, now: int, kept: seq<Seen>)
    requires i < |entries| && LiveOfFirst(entries, i, now, kept)
    ensures LiveOfFirst(entries, i + 1, now, if entries[i].expiry > now then kept + [entries[i]] else kept)
  {
    LiveSnoc(entries, i, now);
    assert kept + [] == kept;
  }

  predicate Knows(entries: seq<Seen>, id: string) {
    exists i :: 0 <= i < |entries| && Key(entries[i].id) == Key(id)
  }

  predicate Room(entries: seq<Seen>, now: int) {
    |Live(entries, now)| < 1000
  }

  predicate IsNew(entries: seq<Seen>, id: string, now: int) {
    !Knows(Live(entries, now), id)
  }

  /** The entries after a check: expired ones are gone, and a new id is recorded if there is room. */
  function Registered(entries: seq<Seen>, id: string, now: int): (after: seq<Seen>)
    ensures |entries| <= MAX_SEEN_QUERIES ==> |after| <= MAX_SEEN_QUERIES
  {
    var live := Live(entries, now);
    if IsNew(entries, id, now) && |live| < MAX_SEEN_QUERIES then live + [Seen(Key(id), now + QUERY_EXPIRY_SEC)] else live
  }

  class SeenCache {
    const queryCache: array<Seen>
    var cacheCount: nat

    ghost predicate Valid()
      reads this
    {
      queryCache.Length == MAX_SEEN_QUERIES && cacheCount <= MAX_SEEN_QUERIES
    }

    ghost function Entries(): seq<Seen>
      requires Valid()
      reads this, queryCache
    {
      queryCache[..cacheCount]
    }

    constructor ()
      ensures Valid() && fresh(queryCache) && Entries() == []
    {
      queryCache := new Seen[MAX_SEEN_QUERIES](_ => Seen("", 0));
      cacheCount := 0;
    }

    /** Compacts the table in place, dropping the expired entries and keeping the order of the others. */
    method Purge(now: int)
      requires Valid()
      modifies this, queryCache
      ensures Valid() && Entries() == Live(old(Entries()), now)
    {
      ghost var entries := Entries();
      var validCount;
      ghost var kept;
      validCount, kept := Compact(now, entries);
      cacheCount := validCount;
      assert Entries() == kept;
      assert entries[..|entries|] == entries;
    }

    /** The loop: a write index that never passes the read index. */
    method Compact(now: int, ghost entries: seq<Seen>) returns (validCount: nat, ghost kept: seq<Seen>)
      requires queryCache.Length >= cacheCount == |entries|
      requires forall k :: 0 <= k < cacheCount ==> queryCache[k] == entries[k]
      modifies queryCache
      ensures validCount == |kept| <= cacheCount && LiveOfFirst(entries, cacheCount, now, kept)
      ensures forall k :: 0 <= k < validCount ==> queryCache[k] == kept[k]
    {
      hide LiveOfFirst;
      kept := [];
      NoneLive(entries, now);
      validCount := 0;
      var i := 0;
      while i < cacheCount
        invariant i <= cacheCount && |kept| == validCount <= i
        invariant LiveOfFirst(entries, i, now, kept)
        invariant forall k :: 0 <= k < validCount ==> queryCache[k] == kept[k]
        invariant forall k :: i <= k < cacheCount ==> queryCache[k] == entries[k]
      {
        OneMoreLive(entries, i, now, kept);
        if queryCache[i].expiry > now {
          queryCache[validCount] := queryCache[i];
          kept := kept + [entries[i]];
          validCount := validCount + 1;
        }
        i := i + 1;
      }
    }

    method Contains(id: string) returns (found: bool)
      requires Valid()
      ensures found == Knows(Entries(), id)
    {
      var i := 0;
      while i < cacheCount
        invariant i <= cacheCount
        invariant forall k :: 0 <= k < i ==> Key(queryCache[k].id) != Key(id)
      {
        if Key(queryCache[i].id) == Key(id) {
          assert Entries()[i] == queryCache[i];
          return true;
        }
        i := i + 1;
      }
      found := false;
    }

    /** Purges, looks the id up, and appends it if it is new and the table is not full; without the lock the id is taken
        for an old one. */
    method CheckAndRegister(id: string, now: int, locked: bool) returns (isNew: bool)
      requires Valid()
      modifies this, queryCache
      ensures Valid()
      ensures isNew <==> locked && IsNew(old(Entries()), id, now)
      ensures Entries() == if locked then Registered(old(Entries()), id, now) else old(Entries())
    {
      if !locked {
        return false;
      }
      Purge(now);
      var found := Contains(id);
      isNew := !found;
      if isNew && cacheCount < MAX_SEEN_QUERIES {
        queryCache[cacheCount] := Seen(Key(id), now + QUERY_EXPIRY_SEC);
        cacheCount := cacheCount + 1;
      }
    }
  }

  // --- The cache over a whole history of checks ---

  datatype Check = Check(id: string, now: int)

  /** The entries after the first k checks of a history. */
  function After(history: seq<Check>, k: nat): seq<Seen>
    requires k <= |history|
  {
    if k == 0 then [] else Registered(After(history, k - 1), history[k - 1].id, history[k - 1].now)
  }

  predicate Accepted(history: seq<Check>, k: nat)
    requires k < |history|
  {
    IsNew(After(history, k), history[k].id, history[k].now)
  }

  /** The k-th check accepted its id and there was room to record it. */
  predicate Recorded(history: seq<Check>, k: nat)
    requires k < |history|
  {
    Accepted(history, k) && Room(After(history, k), history[k].now)
  }

  function EntryOf(c: Check): Seen {
    Seen(Key(c.id), c.now + QUERY_EXPIRY_SEC)
  }

  /** Before the k-th check, the entry of check j is still there: it was recorded, and no check since came at or
      after its expiry. */
  ghost predicate Remembered(history: seq<Check>, j: nat, k: nat)
    requires k <= |history|
  {
    && j < k && Recorded(history, j)
    && forall m :: j < m < k ==> history[m].now < history[j].now + 60
  }

  lemma {:induction false} TableEntryRemembered(history: seq<Check>, k: nat, e: Seen) returns (j: nat)
    requires k <= |history| && e in After(history, k)
    ensures Remembered(history, j, k) && e == EntryOf(history[j])
  {
    hide Live, IsNew, Key;
    var before, c := After(history, k - 1), history[k - 1];
    if e in before && e.expiry > c.now {
      j := TableEntryRemembered(history, k - 1, e);
    } else {
      assert Recorded(history, k - 1) && e == EntryOf(c);
      j := k - 1;
    }
  }

  lemma {:induction false} RememberedInTable(history: seq<Check>, j: nat, k: nat)
    requires k <= |history| && Remembered(history, j, k)
    ensures EntryOf(history[j]) in After(history, k)
  {
    hide Live, IsNew, Key;
    var before, c := After(history, k - 1), history[k - 1];
    if j < k - 1 {
      assert Remembered(history, j, k - 1);
      RememberedInTable(history, j, k - 1);
      assert EntryOf(history[j]) in Live(before, c.now);
    } else {
      assert EntryOf(c) in Live(before, c.now) + [EntryOf(c)];
    }
  }

  /** The table holds exactly the remembered checks. */
  lemma TableHoldsRemembered(history: seq<Check>, k: nat, e: Seen)
    requires k <= |history|
    ensures e in After(history, k) <==> exists j: nat :: Remembered(history, j, k) && e == EntryOf(history[j])
  {
    hide After, EntryOf;
    if e in After(history, k) {
      var j := TableEntryRemembered(history, k, e);
    }
    if j: nat :| Remembered(history, j, k) && e == EntryOf(history[j]) {
      RememberedInTable(history, j, k);
    }
  }

  lemma KnowsById(entries: seq<Seen>, e: Seen, id: string)
    requires e in entries && Key(e.id) == Key(id)
    ensures Knows(entries, id)
  {
  }

  lemma KnownEntry(entries: seq<Seen>, id: string) returns (e: Seen)
    requires Knows(entries, id)
    ensures e in entries && Key(e.id) == Key(id)
  {
    var i :| 0 <= i < |entries| && Key(entries[i].id) == Key(id);
    e := entries[i];
  }

  lemma KeyTwice(id: string)
    ensures Key(Key(id)) == Key(id)
  {
  }

  /** With any clock, even one that runs backwards: a check is refused exactly when an earlier check of the same id
      was recorded and no check since then, itself included, came 60 seconds or more after it. */
  lemma RefusedIffRemembered(history: seq<Check>, k: nat)
    requires k < |history|
    ensures !Accepted(history, k) <==>
      exists j: nat :: Remembered(history, j, k) && Key(history[j].id) == Key(history[k].id)
                       && history[k].now < history[j].now + 60
  {
    hide After, Live, Knows, Key;
    var entries, c := After(history, k), history[k];
    var live := Live(entries, c.now);
    if !Accepted(history, k) {
      var e := KnownEntry(live, c.id);
      var j := TableEntryRemembered(history, k, e);
      KeyTwice(history[j].id);
      assert j < |history| && Remembered(history, j, k);
    }
    if j: nat :| j < |history| && Remembered(history, j, k) && Key(history[j].id) == Key(c.id)
                 && c.now < history[j].now + 60 {
      RememberedInTable(history, j, k);
      KeyTwice(history[j].id);
      KnowsById(live, EntryOf(history[j]), c.id);
    }
  }

  ghost predicate ClockNeverBack(history: seq<Check>) {
    forall i, j :: 0 <= i <= j < |history| ==> history[i].now <= history[j].now
  }

  /** With a clock that never goes back, an id accepted twice was accepted 60 seconds apart, or the table was full the
      first time. */
  lemma AcceptedTwice(history: seq<Check>, j: nat, k: nat)
    requires ClockNeverBack(history) && j < k < |history| && Key(history[j].id) == Key(history[k].id)
    requires Accepted(history, j) && Accepted(history, k)
    ensures history[k].now >= history[j].now + 60 || !Room(After(history, j), history[j].now)
  {
    RefusedIffRemembered(history, k);
    if history[k].now < history[j].now + 60 && Room(After(history, j), history[j].now) {
      assert Remembered(history, j, k);
    }
  }

  ghost predicate WellFormed(entries: seq<Seen>) {
    && |entries| <= 1000
    && (forall i :: 0 <= i < |entries| ==> |entries[i].id| <= 16)
    && (forall i, j :: 0 <= i < j < |entries| ==> entries[i].id != entries[j].id)
  }

  ghost predicate SortedByExpiry(entries: seq<Seen>) {
    forall i, j :: 0 <= i < j < |entries| ==> entries[i].expiry <= entries[j].expiry
  }

  lemma {:induction false} LiveIsSubsequence(entries: seq<Seen>, now: int, i: nat, j: nat) returns (p: nat, q: nat)
    requires i < j < |Live(entries, now)|
    ensures p < q < |entries| && Live(entries, now)[i] == entries[p] && Live(entries, now)[j] == entries[q]
  {
    var init, last := entries[..|entries| - 1], entries[|entries| - 1];
    if j < |Live(init, now)| {
      p, q := LiveIsSubsequence(init, now, i, j);
    } else {
      assert Live(init, now)[i] in Live(init, now);
      p :| 0 <= p < |init| && init[p] == Live(init, now)[i];
      q := |entries| - 1;
    }
  }

  lemma LiveKeepsOrder(entries: seq<Seen>, now: int)
    ensures WellFormed(entries) ==> WellFormed(Live(entries, now))
    ensures SortedByExpiry(entries) ==> SortedByExpiry(Live(entries, now))
  {
    var live := Live(entries, now);
    hide Live;
    forall i | 0 <= i < |live|
      ensures WellFormed(entries) ==> |live[i].id| <= ID_LENGTH
    {
      assert live[i] in live;
    }
    forall i, j | 0 <= i < j < |live|
      ensures WellFormed(entries) ==> live[i].id != live[j].id
      ensures SortedByExpiry(entries) ==> live[i].expiry <= live[j].expiry
    {
      var p, q := LiveIsSubsequence(entries, now, i, j);
    }
  }

  ghost predicate ExpiriesUpTo(entries: seq<Seen>, limit: int) {
    forall i :: 0 <= i < |entries| ==> entries[i].expiry <= limit
  }

  lemma RegisteredKeeps(entries: seq<Seen>, id: string, now: int)
    requires WellFormed(entries)
    ensures WellFormed(Registered(entries, id, now))
    ensures SortedByExpiry(entries) && ExpiriesUpTo(entries, now + QUERY_EXPIRY_SEC)
        ==> SortedByExpiry(Registered(entries, id, now)) && ExpiriesUpTo(Registered(entries, id, now), now + QUERY_EXPIRY_SEC)
  {
    var live := Live(entries, now);
    LiveKeepsOrder(entries, now);
    LiveUpTo(entries, now, now + QUERY_EXPIRY_SEC);
    hide Live, WellFormed, SortedByExpiry, ExpiriesUpTo, IsNew, Key;
    if IsNew(entries, id, now) && |live| < MAX_SEEN_QUERIES {
      NewIsOther(entries, id, now);
      EntryAppended(live, Key(id), now + QUERY_EXPIRY_SEC);
    }
  }

  lemma LiveUpTo(entries: seq<Seen>, now: int, limit: int)
    ensures ExpiriesUpTo(entries, limit) ==> ExpiriesUpTo(Live(entries, now), limit)
  {
    var live := Live(entries, now);
    hide Live;
    forall i | 0 <= i < |live|
      ensures live[i] in entries
    {
      assert live[i] in live;
    }
  }

  lemma NewIsOther(entries: seq<Seen>, id: string, now: int)
    requires IsNew(entries, id, now)
    ensures |Key(id)| <= ID_LENGTH
    ensures forall i :: 0 <= i < |Live(entries, now)| ==> Live(entries, now)[i].id != Key(id)
  {
    var live := Live(entries, now);
    KeyLength(id);
    hide Live, Knows, Key;
    KeyTwice(id);
    forall i | 0 <= i < |live|
      ensures live[i].id != Key(id)
    {
      if live[i].id == Key(id) {
        KnowsById(live, live[i], id);
      }
    }
  }

  lemma EntryAppended(live: seq<Seen>, key: string, expiry: int)
    requires |key| <= ID_LENGTH && |live| < MAX_SEEN_QUERIES && forall i :: 0 <= i < |live| ==> live[i].id != key
    ensures WellFormed(live) ==> WellFormed(live + [Seen(key, expiry)])
    ensures SortedByExpiry(live) && ExpiriesUpTo(live, expiry) ==>
      SortedByExpiry(live + [Seen(key, expiry)]) && ExpiriesUpTo(live + [Seen(key, expiry)], expiry)
  {
  }

  lemma KeyLength(id: string)
    ensures |Key(id)| <= ID_LENGTH
  {
  }

  /** All along, the table never holds more than 1000 ids nor an id twice, and under a clock that never goes back its
      entries are in order of expiry. */
  lemma {:induction false} TableInvariant(history: seq<Check>, k: nat)
    requires k <= |history|
    ensures WellFormed(After(history, k))
    ensures ClockNeverBack(history) ==> SortedByExpiry(After(history, k))
    ensures ClockNeverBack(history) && k > 0 ==> ExpiriesUpTo(After(history, k), history[k - 1].now + QUERY_EXPIRY_SEC)
  {
    if k > 0 {
      hide Registered, WellFormed, SortedByExpiry;
      TableInvariant(history, k - 1);
      RegisteredKeeps(After(history, k - 1), history[k - 1].id, history[k - 1].now);
      if ClockNeverBack(history) {
        assert k > 1 ==> history[k - 2].now <= history[k - 1].now;
        UpToLater(history, k);
      }
    } else {
      assert WellFormed([]) && SortedByExpiry([]);
    }
  }

  lemma UpToLater(history: seq<Check>, k: nat)
    requires 0 < k <= |history| && (k > 1 ==> history[k - 2].now <= history[k - 1].now)
    requires k > 1 ==> ExpiriesUpTo(After(history, k - 1), history[k - 2].now + QUERY_EXPIRY_SEC)
    ensures ExpiriesUpTo(After(history, k - 1), history[k - 1].now + QUERY_EXPIRY_SEC)
  {
    hide Registered;
  }

  // --- A full table ---

  /** Check i of a burst in one second: a thousand different ids, and then one more id twice. */
  function Burst(i: nat): Check
    requires i <= MAX_SEEN_QUERIES + 1
  {
    var n := if i > MAX_SEEN_QUERIES then MAX_SEEN_QUERIES else i;
    Check([(48 + n / 32) as char, (48 + n % 32) as char], 0)
  }

  function Bursts(k: nat): (history: seq<Check>)
    requires k <= MAX_SEEN_QUERIES + 2
    ensures |history| == k && forall i :: 0 <= i < k ==> history[i] == Burst(i)
  {
    seq(k, i requires 0 <= i < k => Burst(i))
  }

  function BurstEntries(k: nat): (entries: seq<Seen>)
    requires k <= MAX_SEEN_QUERIES
    ensures |entries| == k && forall i :: 0 <= i < k ==> entries[i] == EntryOf(Burst(i))
  {
    seq(k, i requires 0 <= i < k => EntryOf(Burst(i)))
  }

  lemma BurstIdsDiffer(i: nat, j: nat)
    requires i <= MAX_SEEN_QUERIES && j <= MAX_SEEN_QUERIES
    ensures Key(Burst(i).id) == Burst(i).id
    ensures Burst(i).id == Burst(j).id <==> i == j
  {
    if Burst(i).id == Burst(j).id {
      assert Burst(i).id[0] == Burst(j).id[0] && Burst(i).id[1] == Burst(j).id[1];
    }
  }

  lemma {:induction false} AllLive(entries: seq<Seen>, now: int)
    requires forall i :: 0 <= i < |entries| ==> entries[i].expiry > now
    ensures Live(entries, now) == entries
  {
    if entries != [] {
      var init, last := entries[..|entries| - 1], entries[|entries| - 1];
      AllLive(init, now);
      assert entries == init + [last];
    }
  }

  lemma BurstIsNew(k: nat)
    requires k <= MAX_SEEN_QUERIES
    ensures Live(BurstEntries(k), 0) == BurstEntries(k) && IsNew(BurstEntries(k), Burst(k).id, 0)
  {
    AllLive(BurstEntries(k), 0);
    hide Live, Burst, Key;
    forall i | 0 <= i < k
      ensures Key(BurstEntries(k)[i].id) != Key(Burst(k).id)
    {
      BurstIdsDiffer(i, k);
      BurstIdsDiffer(k, k);
      KeyTwice(Burst(i).id);
      BurstIdsDiffer(i, i);
    }
  }

  lemma {:induction false} BurstFills(history: seq<Check>, k: nat)
    requires history == Bursts(MAX_SEEN_QUERIES + 2) && k <= MAX_SEEN_QUERIES
    ensures After(history, k) == BurstEntries(k)
  {
    if k > 0 {
      hide Burst, Registered, BurstEntries;
      BurstFills(history, k - 1);
      BurstStep(k - 1);
      BurstTime(k - 1);
    }
  }

  lemma BurstStep(k: nat)
    requires k < MAX_SEEN_QUERIES
    ensures Registered(BurstEntries(k), Burst(k).id, 0) == BurstEntries(k + 1)
  {
    hide Burst, Registered, BurstEntries, IsNew;
    BurstIsNew(k);
    BurstTime(k);
    NewWithRoom(BurstEntries(k), Burst(k));
    BurstSnoc(k);
  }

  lemma {:induction false} NewWithRoom(entries: seq<Seen>, c: Check)
    requires Live(entries, c.now) == entries && IsNew(entries, c.id, c.now) && |entries| < MAX_SEEN_QUERIES
    ensures Registered(entries, c.id, c.now) == entries + [EntryOf(c)]
  {
    hide Live, IsNew, Key;
    assert Live(entries, c.now) == entries;
  }

  lemma BurstSnoc(k: nat)
    requires k < MAX_SEEN_QUERIES
    ensures BurstEntries(k) + [EntryOf(Burst(k))] == BurstEntries(k + 1)
  {
    hide Burst, EntryOf;
  }

  lemma BurstTime(i: nat)
    requires i <= MAX_SEEN_QUERIES + 1
    ensures Burst(i).now == 0 && Burst(MAX_SEEN_QUERIES).id == Burst(MAX_SEEN_QUERIES + 1).id
  {
  }

  /** With the table full, one id is accepted twice in the same second. */
  lemma FullTableAcceptsTwice(history: seq<Check>)
    requires history == Bursts(MAX_SEEN_QUERIES + 2)
    ensures ClockNeverBack(history)
    ensures var k := MAX_SEEN_QUERIES;
      && history[k] == history[k + 1] && Accepted(history, k) && Accepted(history, k + 1)
      && !Room(After(history, k), history[k].now)
  {
    var k := MAX_SEEN_QUERIES;
    BurstFills(history, k);
    BurstIsNew(k);
    BurstTime(k);
    BurstTime(k + 1);
    forall i | 0 <= i < |history|
      ensures history[i].now == 0
    {
      BurstTime(i);
    }
    hide Live, Key, IsNew, Burst;
    assert After(history, k + 1) == Registered(After(history, k), history[k].id, history[k].now);
  }
}
