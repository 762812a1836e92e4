/** The peers a request command downloads from (client/repl.c). */
module Selection {
  import opened Bytes
  import opened Wrappers
  import opened Addresses
  import opened OrderedMaps
  import opened Registries
  import opened Decimals
  import opened Identity
  import opened Framing
  import opened Sockets
  import opened Messages
  import opened Servers
  import opened FindPath

  predicate Serves(item: FileMeta, id: FileId) {
    item.size == id.size && item.hash == id.hash && item.owner.port != 0
  }

  /** The results that offer the file on a usable port, in order. */
  function Offers(results: seq<FileMeta>, id: FileId): seq<FileMeta> {
    if results == [] then []
    else
      var last := results[|results| - 1];
      Offers(results[..|results| - 1], id) + (if Serves(last, id) then [last] else [])
  }

  function OwnersOf(items: seq<FileMeta>): (owners: seq<Addr>)
    ensures |owners| == |items| && forall i :: 0 <= i < |owners| ==> owners[i] == items[i].owner
  {
    seq(|items|, i requires 0 <= i < |items| => items[i].owner)
  }

  /** Of the offers, each peer's first. */
  function Firsts(items: seq<FileMeta>): seq<FileMeta> {
    if items == [] then []
    else
      var earlier, last := Firsts(items[..|items| - 1]), items[|items| - 1];
      if last.owner in OwnersOf(earlier) then earlier else earlier + [last]
  }

  /** The first name that is not empty. */
  function FirstName(items: seq<FileMeta>): string {
    if items == [] then ""
    else
      var earlier := FirstName(items[..|items| - 1]);
      if earlier != "" then earlier else items[|items| - 1].name
  }

  function Picked(results: seq<FileMeta>, id: FileId, capacity: nat): (items: seq<FileMeta>)
    ensures |items| <= capacity
  {
    Take(Firsts(Offers(results, id)), capacity)
  }

  /** The peers chosen for a file are the distinct owners of the results that offer it, in order of first appearance. */
  lemma {:induction false} FirstsAreDistinctOwners(items: seq<FileMeta>)
    ensures OwnersOf(Firsts(items)) == Distinct(OwnersOf(items))
  {
    if items != [] {
      FirstsAreDistinctOwners(items[..|items| - 1]);
      assert OwnersOf(items)[..|items| - 1] == OwnersOf(items[..|items| - 1]);
    }
  }

  lemma {:induction false} OfferIff(results: seq<FileMeta>, id: FileId, f: FileMeta)
    ensures f in Offers(results, id) <==> f in results && Serves(f, id)
  {
    if results != [] {
      OfferIff(results[..|results| - 1], id, f);
    }
  }

  /** A peer is chosen exactly when one of the results offers the file from its address; each is chosen once. */
  lemma PickedOwners(results: seq<FileMeta>, id: FileId, capacity: nat)
    requires |results| <= capacity
    ensures NoDuplicates(OwnersOf(Picked(results, id, capacity)))
    ensures forall a :: a in OwnersOf(Picked(results, id, capacity)) <==>
      exists f :: f in results && Serves(f, id) && f.owner == a
  {
    hide Offers, Firsts, Serves, Distinct;
    var offers := Offers(results, id);
    OffersLength(results, id);
    FirstsAreDistinctOwners(offers);
    FirstsLength(offers);
    DistinctHasNoDuplicates(OwnersOf(offers));
    forall a
      ensures a in OwnersOf(offers) <==> exists f :: f in results && Serves(f, id) && f.owner == a
    {
      OfferedBy(results, id, a);
    }
  }

  lemma OfferedBy(results: seq<FileMeta>, id: FileId, a: Addr)
    ensures a in OwnersOf(Offers(results, id)) <==> exists f :: f in results && Serves(f, id) && f.owner == a
  {
    hide Offers, Serves;
    var offers := Offers(results, id);
    if a in OwnersOf(offers) {
      var i :| 0 <= i < |offers| && OwnersOf(offers)[i] == a;
      OfferIff(results, id, offers[i]);
    }
    if f :| f in results && Serves(f, id) && f.owner == a {
      OfferIff(results, id, f);
      var i :| 0 <= i < |offers| && offers[i] == f;
      assert OwnersOf(offers)[i] == a;
    }
  }

  lemma {:induction false} OffersLength(results: seq<FileMeta>, id: FileId)
    ensures |Offers(results, id)| <= |results|
  {
    if results != [] {
      OffersLength(results[..|results| - 1], id);
    }
  }

  lemma {:induction false} FirstsLength(items: seq<FileMeta>)
    ensures |Firsts(items)| <= |items|
  {
    if items != [] {
      FirstsLength(items[..|items| - 1]);
    }
  }

  /** The source name is the first name that is not empty, or empty when all are. */
  lemma {:induction false} FirstNameIs(items: seq<FileMeta>)
    ensures FirstName(items) == "" <==> forall i :: 0 <= i < |items| ==> items[i].name == ""
    ensures FirstName(items) != "" ==>
      exists i :: 0 <= i < |items| && items[i].name == FirstName(items) && forall j :: 0 <= j < i ==> items[j].name == ""
  {
    if items != [] {
      var init, last := items[..|items| - 1], items[|items| - 1];
      FirstNameIs(init);
      assert forall i :: 0 <= i < |init| ==> items[i] == init[i];
      if FirstName(init) != "" {
        var i :| 0 <= i < |init| && init[i].name == FirstName(init) && forall j :: 0 <= j < i ==> init[j].name == "";
        assert items[i].name == FirstName(items);
      } else {
        assert items[|init|] == last;
      }
    }
  }

  // --- The loops ---

  method PeerAlreadyAdded(peers: array<Addr>, count: nat, item: FileMeta) returns (added: bool)
    requires count <= peers.Length
    ensures added <==> item.owner in peers[..count]
  {
    var i := 0;
    while i < count
      invariant i <= count && item.owner !in peers[..i]
    {
      if peers[i] == item.owner {
        return true;
      }
      i := i + 1;
    }
    added := false;
  }

  lemma OfferSnoc(results: seq<FileMeta>, i: nat, id: FileId)
    requires i < |results|
    ensures Firsts(Offers(results[..i + 1], id))
         == var before := Firsts(Offers(results[..i], id));
            if Serves(results[i], id) && results[i].owner !in OwnersOf(before) then before + [results[i]] else before
  {
    assert results[..i + 1][..i] == results[..i];
    var before := Offers(results[..i], id);
    assert (before + [results[i]])[..|before|] == before && before + [] == before;
  }

  lemma OwnersSnoc(items: seq<FileMeta>, f: FileMeta)
    ensures OwnersOf(items + [f]) == OwnersOf(items) + [f.owner]
    ensures FirstName(items + [f]) == if FirstName(items) != "" then FirstName(items) else f.name
  {
    assert (items + [f])[..|items|] == items;
  }

  lemma {:induction false} FirstsPrefix(results: seq<FileMeta>, i: nat, id: FileId)
    requires i <= |results|
    ensures Firsts(Offers(results[..i], id)) <= Firsts(Offers(results, id))
    decreases |results| - i
  {
    hide Firsts, Offers, OwnersOf;
    if i < |results| {
      OfferSnoc(results, i, id);
      FirstsPrefix(results, i + 1, id);
    } else {
      assert results[..i] == results;
    }
  }

  /** Fills the peers from the cached results, first owners first, until the array is full; the source name, empty at
      first, is the first name among the results that brought a peer. */
  method CollectCachedPeers(lastResults: seq<FileMeta>, id: FileId, peers: array<Addr>) returns (count: nat, sourceName: string)
    modifies peers
    ensures count == |Picked(lastResults, id, peers.Length)|
    ensures peers[..count] == OwnersOf(Picked(lastResults, id, peers.Length))
    ensures sourceName == FirstName(Picked(lastResults, id, peers.Length))
  {
    hide Firsts, Offers, Serves, FirstName;
    count, sourceName := 0, "";
    ghost var picked := Firsts(Offers(lastResults[..0], id));
    NothingPicked(lastResults, id);
    var i := 0;
    while i < |lastResults| && count < peers.Length
      invariant i <= |lastResults| && count == |picked| <= peers.Length
      invariant picked == Firsts(Offers(lastResults[..i], id))
      invariant peers[..count] == OwnersOf(picked) && sourceName == FirstName(picked)
    {
      var item := lastResults[i];
      OfferSnoc(lastResults, i, id);
      var added := PeerAlreadyAdded(peers, count, item);
      if Serves(item, id) && !added {
        OwnersSnoc(picked, item);
        picked := picked + [item];
        peers[count] := item.owner;
        if sourceName == "" {
          sourceName := item.name;
        }
        count := count + 1;
      }
      i := i + 1;
    }
    FirstsPrefix(lastResults, i, id);
    if i == |lastResults| {
      assert lastResults[..i] == lastResults;
    }
    assert picked == Picked(lastResults, id, peers.Length);
  }

  lemma NothingPicked(results: seq<FileMeta>, id: FileId)
    ensures Firsts(Offers(results[..0], id)) == [] && FirstName([]) == ""
  {
    assert results[..0] == [];
  }

  /** The client between commands: it remembers the results of its last search. */
  class Session {
    var lastResults: seq<FileMeta>

    constructor ()
      ensures lastResults == []
    {
      lastResults := [];
    }

    /** refresh_identity_peers: asks the server for the file by size and hash; the results are remembered only if some
        peer offers it. */
    method RefreshIdentityPeers(little: bool, s: Socket, id: FileId, peers: array<Addr>) returns (count: nat, sourceName: string)
      requires id.size < UINT64_LIMIT && id.hash < UINT64_LIMIT
      modifies this, s, peers
      ensures count > 0 ==>
        && ClientReads(little, old(s.incoming)) == Some(lastResults)
        && count == |Picked(lastResults, id, peers.Length)| && peers[..count] == OwnersOf(Picked(lastResults, id, peers.Length))
        && sourceName == FirstName(Picked(lastResults, id, peers.Length))
        && s.outgoing == old(s.outgoing) + Frame(FindRequest(little, Print(id.size) + " " + Print(id.hash)))
      ensures count == 0 ==> lastResults == old(lastResults) && sourceName == ""
      ensures NeverFails(old(s.schedule)) && ClientReads(little, old(s.incoming)).Some? ==>
        count == |Picked(ClientReads(little, old(s.incoming)).value, id, peers.Length)|
    {
      hide ClientReads, Picked, FirstName, OwnersOf, BuildIdentityTerm;
      count, sourceName := 0, "";
      var term := BuildIdentityTerm(id.size, id.hash);
      if term.None? {
        IdentityRoundTrip(id.size, id.hash);
        return;
      }
      IdentityTermIs(id);
      var ok, refreshed := ServerFindFiles(little, s, term.value);
      if !ok {
        return;
      }
      count, sourceName := CollectCachedPeers(refreshed, id, peers);
      if count > 0 {
        lastResults := refreshed;
      } else {
        NoName(Picked(refreshed, id, peers.Length));
      }
    }

    /** The peers of a request command: those the server names now or, when it names none or cannot be reached, those in
        the results remembered from before. */
    method SelectPeers(little: bool, s: Socket, id: FileId, peers: array<Addr>) returns (count: nat, sourceName: string)
      requires id.size < UINT64_LIMIT && id.hash < UINT64_LIMIT
      modifies this, s, peers
      ensures count == |Picked(lastResults, id, peers.Length)|
      ensures peers[..count] == OwnersOf(Picked(lastResults, id, peers.Length))
      ensures sourceName == FirstName(Picked(lastResults, id, peers.Length))
      ensures lastResults == old(lastResults) || ClientReads(little, old(s.incoming)) == Some(lastResults)
      ensures NeverFails(old(s.schedule)) ==>
        match ClientReads(little, old(s.incoming))
        case None => lastResults == old(lastResults)
        case Some(found) => if Picked(found, id, peers.Length) != [] then lastResults == found else lastResults == old(lastResults)
    {
      hide ClientReads, Picked, FirstName, OwnersOf;
      count, sourceName := RefreshIdentityPeers(little, s, id, peers);
      if count == 0 {
        count, sourceName := CollectCachedPeers(lastResults, id, peers);
      }
    }
  }

  lemma NoName(items: seq<FileMeta>)
    requires items == []
    ensures FirstName(items) == ""
  {
  }

  lemma IdentityTermIs(id: FileId)
    ensures BuildIdentityTerm(id.size, id.hash).Some? ==>
      BuildIdentityTerm(id.size, id.hash).value == Print(id.size) + " " + Print(id.hash)
  {
    hide Print;
  }

  // --- What the server's answer makes the client choose ---

  /** The identity term reaches the server whole and is read as the file asked for. */
  lemma IdentityChosen(id: FileId)
    requires id.size < UINT64_LIMIT && id.hash < UINT64_LIMIT
    ensures var term := BuildIdentityTerm(id.size, id.hash);
      && term.Some? && term.value != "" && IsCText(term.value) && Take(term.value, MAX_TERM - 1) == term.value
      && Chosen(term.value) == ByIdentity(id.hash, id.size)
  {
    IdentityRoundTrip(id.size, id.hash);
    hide ParseTerm;
    IdentityTermText(id);
  }

  lemma IdentityTermText(id: FileId)
    ensures BuildIdentityTerm(id.size, id.hash).Some? ==>
      BuildIdentityTerm(id.size, id.hash).value != "" && IsCText(BuildIdentityTerm(id.size, id.hash).value)
  {
    var size, hash := Print(id.size), Print(id.hash);
    hide Print;
    DigitsAreText(size);
    DigitsAreText(hash);
    var term := size + " " + hash;
    assert forall i :: 0 <= i < |term| ==> term[i] in size || term[i] == ' ' || term[i] in hash;
  }

  lemma DigitsAreText(s: string)
    requires forall k :: 0 <= k < |s| ==> IsDigit(s[k])
    ensures forall c :: c in s ==> 0 < c as int < 256
  {
  }

  /** From any run of requests to the choice of peers: the server's answer to `request S H` is every file with that
      identity, up to 256, and the client chooses exactly their owners with a usable port, each once. */
  lemma RequestFindsOwners(server: bool, client: bool, requests: seq<Request>, ip: string, now: nat, id: FileId)
    requires AllFit(requests) && id.size < UINT64_LIMIT && id.hash < UINT64_LIMIT
    ensures var table := ServerRun(server, requests);
            var term := BuildIdentityTerm(id.size, id.hash);
            var found := Take(Filter(Flatten(table), ByIdentity(id.hash, id.size)), MAX_RESULTS);
      && term.Some?
      && ClientReads(client, Frame(Served(server, table, ip, FindRequest(client, term.value), now, LOCKED).reply)) == Some(found)
      && NoDuplicates(OwnersOf(Picked(found, id, 256)))
      && forall a :: a in OwnersOf(Picked(found, id, 256)) <==> a.port != 0 && exists f :: f in found && f.owner == a
  {
    hide ServerRun, Frame, Served, ClientReads, Picked, BuildIdentityTerm, Filter, Flatten, FindRequest, Chosen, ErrorMessage;
    var table := ServerRun(server, requests);
    IdentityChosen(id);
    var term := BuildIdentityTerm(id.size, id.hash).value;
    FindEndToEnd(server, client, requests, ip, now, LOCKED, term, []);
    ChosenSelects(Flatten(table), term);
    var reply := Served(server, table, ip, FindRequest(client, term), now, LOCKED).reply;
    assert Frame(reply) + [] == Frame(reply);
    var found := Found(table, term);
    PickedOwners(found, id, MAX_RESULTS);
    forall f | f in found
      ensures f.hash == id.hash && f.size == id.size
    {
      FilteredFrom(Flatten(table), ByIdentity(id.hash, id.size), f);
    }
  }

  /** With at most 256 matching files, the chosen peers are exactly the first 64 registered peers whose last registration
      offers the file on a usable port. */
  lemma AllOwnersFound(history: seq<Registration>, id: FileId, a: Addr)
    requires |Filter(Flatten(Registered(history)), ByIdentity(id.hash, id.size))| <= 256
    ensures var found := Take(Filter(Flatten(Registered(history)), ByIdentity(id.hash, id.size)), 256);
      a in OwnersOf(Picked(found, id, 256)) <==>
        a in Take(Distinct(Owners(history)), 64) && exists f :: LatelyRegistered(history, f) && f.owner == a && Serves(f, id)
  {
    hide Filter, Flatten, Picked, Registered, Distinct, LatelyRegistered, Stamped, Serves;
    var c := ByIdentity(id.hash, id.size);
    var all := Filter(Flatten(Registered(history)), c);
    PickedOwners(all, id, MAX_RESULTS);
    forall f: FileMeta | f.owner == a && Serves(f, id)
      ensures f in all <==> LatelyRegistered(history, f) && a in Take(Distinct(Owners(history)), MAX_PEERS)
    {
      FilteredFrom(Flatten(Registered(history)), c, f);
      ServesMatches(f, id);
      FlattenedFrom(Registered(history), f);
      FilesInTable(history, f);
    }
  }

  lemma ServesMatches(f: FileMeta, id: FileId)
    requires Serves(f, id)
    ensures ByIdentity(id.hash, id.size).Matches(f)
  {
  }

  /** The slots of a registry: one for each peer, and every file in a slot is its peer's. */
  ghost predicate OwnSlots(table: seq<PeerSlot>) {
    && NoDuplicates(Keys(table))
    && forall i, j :: 0 <= i < |table| && 0 <= j < |table[i].value.files| ==> table[i].value.files[j].owner == table[i].key
  }

  // The peer in slot i has a file that the request is for.
  ghost predicate HasMatch(table: seq<PeerSlot>, c: Criterion, i: nat)
    requires i < |table|
  {
    exists f :: f in table[i].value.files && c.Matches(f)
  }

  lemma {:induction false} SlotsBefore(table: seq<PeerSlot>, i: nat, f: FileMeta)
    requires OwnSlots(table) && i < |table| && f in Flatten(table[..i])
    ensures f.owner != table[i].key
  {
    hide Flatten;
    FlattenedFrom(table[..i], f);
    var j :| 0 <= j < i && f in table[..i][j].value.files;
    assert Keys(table)[j] == table[j].key == f.owner && Keys(table)[i] == table[i].key;
  }

  lemma {:induction false} SlotOfOwner(table: seq<PeerSlot>, i: nat, f: FileMeta)
    requires OwnSlots(table) && i < |table| && f in Flatten(table) && f.owner == table[i].key
    ensures f in table[i].value.files
  {
    hide Flatten;
    FlattenedFrom(table, f);
    var j :| 0 <= j < |table| && f in table[j].value.files;
    assert Keys(table)[j] == table[j].key == f.owner && Keys(table)[i] == table[i].key;
  }

  /** The files of slot i that match come right after those of the slots before. */
  lemma {:induction false} MatchesOfSlot(table: seq<PeerSlot>, c: Criterion, i: nat)
    requires i < |table|
    ensures Filter(Flatten(table[..i]), c) <= Filter(Flatten(table), c)
    ensures Filter(Flatten(table[..i]), c) + Filter(table[i].value.files, c) <= Filter(Flatten(table), c)
  {
    hide Filter, Flatten;
    FilterFlattenPrefix(table, i, c);
    FilterFlattenPrefix(table, i + 1, c);
    FlattenSnoc(table, i);
    FilterAppend(Flatten(table[..i]), table[i].value.files, c);
  }

  lemma {:induction false} SomeMatch(files: seq<FileMeta>, c: Criterion, f: FileMeta)
    requires f in files && c.Matches(f)
    ensures Filter(files, c) != [] && Filter(files, c)[0] in files && c.Matches(Filter(files, c)[0])
  {
    FilteredFrom(files, c, f);
    FilteredFrom(files, c, Filter(files, c)[0]);
  }

  /** A slot has one of its matching files among the first 256 of the registry exactly when it has one and fewer than 256 come
      before. */
  lemma {:induction false} SlotAnswered(table: seq<PeerSlot>, c: Criterion, i: nat)
    requires OwnSlots(table) && i < |table|
    ensures (exists f :: f in Take(Filter(Flatten(table), c), 256) && f.owner == table[i].key)
       <==> HasMatch(table, c, i) && |Filter(Flatten(table[..i]), c)| < 256
  {
    hide Filter, Flatten, Criterion.Matches, OwnSlots;
    var all, before := Filter(Flatten(table), c), Filter(Flatten(table[..i]), c);
    var found := Take(all, MAX_RESULTS);
    MatchesOfSlot(table, c, i);
    if f :| f in found && f.owner == table[i].key {
      FilteredFrom(Flatten(table), c, f);
      SlotOfOwner(table, i, f);
      if |before| >= MAX_RESULTS {
        assert found == before[..MAX_RESULTS];
        FilteredFrom(Flatten(table[..i]), c, f);
        SlotsBefore(table, i, f);
      }
    }
    if HasMatch(table, c, i) && |before| < MAX_RESULTS {
      var f :| f in table[i].value.files && c.Matches(f);
      SomeMatch(table[i].value.files, c, f);
      var g := Filter(table[i].value.files, c)[0];
      assert all[|before|] == g && found[|before|] == g;
      OwnerOfFile(table, i, g);
    }
  }

  lemma {:induction false} OwnerOfFile(table: seq<PeerSlot>, i: nat, f: FileMeta)
    requires OwnSlots(table) && i < |table| && f in table[i].value.files
    ensures f.owner == table[i].key
  {
  }

  /** Which registered peers a request chooses, exactly: the peer in slot i if and only if its port is not zero, it has a file
      of that identity, and the slots before it have fewer than 256. */
  lemma {:induction false} OwnerChosenIff(history: seq<Registration>, id: FileId, i: nat)
    requires i < |Registered(history)|
    ensures var table, c := Registered(history), ByIdentity(id.hash, id.size);
            var found := Take(Filter(Flatten(table), c), MAX_RESULTS);
      table[i].key in OwnersOf(Picked(found, id, 256)) <==>
        table[i].key.port != 0 && HasMatch(table, c, i) && |Filter(Flatten(table[..i]), c)| < 256
  {
    hide Filter, Flatten, Picked, Registered, HasMatch;
    var table, c := Registered(history), ByIdentity(id.hash, id.size);
    var found := Take(Filter(Flatten(table), c), MAX_RESULTS);
    RegistryRefinesMap(history);
    SlotAnswered(table, c, i);
    PickedOwners(found, id, MAX_RESULTS);
    forall f | f in found
      ensures f.hash == id.hash && f.size == id.size
    {
      FilteredFrom(Flatten(table), c, f);
    }
  }

  lemma TwoPeers(first: Registration, second: Registration)
    requires first.owner != second.owner
    ensures Registered([first, second]) == [SlotFor(first), SlotFor(second)]
  {
    hide Stamped;
    var history := Slots([first, second]);
    assert history[..1] == [SlotFor(first)] && history[..1][..0] == [];
    assert UpsertAll(history[..1], MAX_PEERS) == Upsert([], SlotFor(first), MAX_PEERS) == [SlotFor(first)];
    assert history[1] == SlotFor(second);
    assert Slot([SlotFor(first)], second.owner) == 1;
  }

  /** So a peer can be passed over that has the file: here the first peer has registered 256 files of the identity asked for,
      and the second, with one, is not chosen. */
  lemma CopiesHideOwners(first: Registration, second: Registration, id: FileId)
    requires first.owner != second.owner && first.owner.port != 0 && second.owner.port != 0
    requires |first.files| == 256 && |second.files| == 1
    requires forall f :: f in first.files || f in second.files ==> ByIdentity(id.hash, id.size).Matches(f)
    ensures var table := Registered([first, second]);
            var found := Take(Filter(Flatten(table), ByIdentity(id.hash, id.size)), MAX_RESULTS);
      && |table| == 2 && table[1].key == second.owner && HasMatch(table, ByIdentity(id.hash, id.size), 1)
      && first.owner in OwnersOf(Picked(found, id, 256))
      && second.owner !in OwnersOf(Picked(found, id, 256))
  {
    var table, c := Registered([first, second]), ByIdentity(id.hash, id.size);
    TwoPeers(first, second);
    StampedMatches(first.files, first.owner, c);
    StampedMatches(second.files, second.owner, c);
    hide Registered, Filter, Flatten, Picked, Stamped, Criterion.Matches;
    FirstSlot(table);
    assert table[..0] == [];
    NothingFound(table, c, MAX_RESULTS);
    OwnerChosenIff([first, second], id, 0);
    OwnerChosenIff([first, second], id, 1);
  }

  lemma {:induction false} StampedMatches(files: seq<FileMeta>, owner: Addr, c: Criterion)
    requires files != [] && |files| <= MAX_FILES_PER_PEER && c.ByIdentity?
    requires forall f :: f in files ==> c.Matches(f)
    ensures Filter(Stamped(files, owner), c) == Stamped(files, owner) && |Stamped(files, owner)| == |files|
    ensures Stamped(files, owner)[0] in Stamped(files, owner) && c.Matches(Stamped(files, owner)[0])
  {
    var stored := Stamped(files, owner);
    forall j | 0 <= j < |stored|
      ensures c.Matches(stored[j])
    {
      assert files[j] in files;
    }
    hide Filter, Stamped;
    AllMatch(stored, c);
  }

  lemma FirstSlot(table: seq<PeerSlot>)
    requires table != []
    ensures Flatten(table[..1]) == table[0].value.files
  {
    assert table[..1][..0] == [];
  }

  lemma {:induction false} AllMatch(files: seq<FileMeta>, c: Criterion)
    requires forall j :: 0 <= j < |files| ==> c.Matches(files[j])
    ensures Filter(files, c) == files
  {
    if files != [] {
      AllMatch(files[..|files| - 1], c);
    }
  }
}
