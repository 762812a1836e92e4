/** A search through the server from end to end: what the client reads is what the registry holds
    (client/server_api.c, server/query_handler.c, server/registry.c). */
module FindPath {
  import opened Bytes
  import opened Wrappers
  import opened Addresses
  import opened OrderedMaps
  import opened Registries
  import opened Framing
  import opened Sockets
  import opened Texts
  import opened Wire
  import opened Messages
  import opened Servers
  import opened TermGrammar

  // --- The client's side of a search ---

  /** What the client makes of the bytes that come back on the connection. */
  function ClientReads(little: bool, incoming: seq<byte>): Option<seq<FileMeta>> {
    match NextMessage(incoming, HEADER_BYTES + FILES_BYTES)
    case Message(frame, _) => DecodeFilesReply(little, frame)
    case _ => None
  }

  /** server_find_files on a connection: the request goes out whole, and the results are those in the one reply that
      passes every check. */
  method ServerFindFiles(little: bool, s: Socket, term: string) returns (ok: bool, results: seq<FileMeta>)
    modifies s
    ensures ok ==> ClientReads(little, old(s.incoming)) == Some(results)
    ensures ok ==> s.outgoing == old(s.outgoing) + Frame(FindRequest(little, term))
    ensures NeverFails(old(s.schedule)) ==> (ok <==> ClientReads(little, old(s.incoming)).Some?)
  {
    hide Frame, SoundOpcode, DecodeFoundFile, Get32, RowIn;
    results := [];
    ok := s.SendMsg(FindRequest(little, term));
    if !ok {
      return;
    }
    var buffer := new byte[HEADER_BYTES + FILES_BYTES](_ => 0);
    var rc, len := s.RecvMsg(buffer);
    if rc <= 0 {
      return false, [];
    }
    ok, results := ReadResults(little, buffer[..len]);
  }

  method ReadResults(little: bool, frame: seq<byte>) returns (ok: bool, results: seq<FileMeta>)
    ensures DecodeFilesReply(little, frame) == if ok then Some(results) else None
  {
    hide SoundOpcode, DecodeFoundFile, Get32, RowIn;
    results := [];
    if SoundOpcode(little, frame) != Some(FIND_RESP) || |frame| - HEADER_BYTES != FILES_BYTES {
      return false, [];
    }
    var payload := frame[HEADER_BYTES..];
    var count := Get32(little, payload[..4]);
    if count > MAX_RESULTS {
      return false, [];
    }
    var i := 0;
    while i < count
      invariant i <= count && |results| == i
      invariant forall k :: 0 <= k < i ==> results[k] == DecodeFoundFile(little, RowIn(payload, FILE_BYTES, k))
    {
      results := results + [DecodeFoundFile(little, RowIn(payload, FILE_BYTES, i))];
      i := i + 1;
    }
    assert results == seq(count, i requires 0 <= i < count => DecodeFoundFile(little, RowIn(payload, FILE_BYTES, i)));
    ok := true;
  }

  // --- The tables a server can reach ---

  // A request on a connection from `ip`, as the server labels it: any bytes at all, and any luck with the lock.
  datatype Request = Request(ip: string, frame: seq<byte>, now: nat, locks: Locks)

  ghost predicate LabelFits(ip: string) {
    Fits(ip, MAX_IP_LEN) && Normalize(ip) == ip
  }

  ghost predicate AllFit(requests: seq<Request>) {
    forall i :: 0 <= i < |requests| ==> LabelFits(requests[i].ip) && requests[i].now < UINT64_LIMIT
  }

  /** The registry after a run of requests. */
  function ServerRun(little: bool, requests: seq<Request>): seq<PeerSlot> {
    if requests == [] then []
    else
      var last := requests[|requests| - 1];
      Served(little, ServerRun(little, requests[..|requests| - 1]), last.ip, last.frame, last.now, last.locks).table
  }

  ghost predicate SlotFits(slot: PeerSlot) {
    && AddrFits(slot.key) && NormalizeAddr(slot.key) == slot.key && slot.value.lastSeen < UINT64_LIMIT
    && forall j :: 0 <= j < |slot.value.files| ==> FileFits(slot.value.files[j]) && slot.value.files[j].owner == slot.key
  }

  ghost predicate TableFits(table: seq<PeerSlot>) {
    forall i :: 0 <= i < |table| ==> SlotFits(table[i])
  }

  lemma GetBound(little: bool, f: seq<byte>)
    ensures |f| == 2 ==> Get16(little, f) < UINT16_LIMIT
    ensures |f| == 8 ==> Get64(little, f) < UINT64_LIMIT
  {
    hide *;
    if |f| == 2 {
      GetBound16(little, f);
    }
    if |f| == 8 {
      GetBound64(little, f);
    }
  }

  lemma GetBound16(little: bool, f: seq<byte>)
    requires |f| == 2
    ensures Get16(little, f) < UINT16_LIMIT
  {
    hide FromBigEndian, ByteOrder.FromLittleEndian, BigEndian;
    PowersOf256();
    BigEndianBound(f);
    ByteOrder.FromLittleEndianBound(f);
    ByteOrder.FromLittleEndianBound(BigEndian(ByteOrder.Load(little, f), 2));
  }

  lemma GetBound64(little: bool, f: seq<byte>)
    requires |f| == 8
    ensures Get64(little, f) < UINT64_LIMIT
  {
    hide FromBigEndian, ByteOrder.FromLittleEndian, BigEndian, ByteOrder.HostToNet64;
    PowersOf256();
    BigEndianBound(f);
    ByteOrder.FromLittleEndianBound(f);
    ByteOrder.NetworkOrderBytes(little, ByteOrder.Load(little, f));
  }

  lemma {:induction false} TextFits(f: seq<byte>)
    ensures Fits(Text(f), |f| + 1)
  {
    if f != [] && f[0] != 0 {
      TextFits(f[1..]);
    }
  }

  /** Whatever bytes a record holds, what the server reads from it fits the fields it will be sent in. */
  lemma DecodedFits(little: bool, b: seq<byte>)
    requires |b| == FILE_BYTES
    ensures FileFits(DecodeFile(little, b))
  {
    hide Text, Get16, Get64;
    TextFits(b[..255]);
    TextFits(b[272..317]);
    GetBound(little, b[256..264]);
    GetBound(little, b[264..272]);
    GetBound(little, b[318..320]);
  }

  lemma DecodedRegistration(little: bool, ip: string, payload: seq<byte>, now: nat)
    requires |payload| == FILES_BYTES && LabelFits(ip) && now < UINT64_LIMIT
    ensures match DecodeRegister(little, payload)
            case None => true
            case Some((port, files)) => SlotFits(SlotFor(Registration(Addr(ip, port), files, now)))
  {
    hide DecodeFile, RowIn, Get16, Get32, Fits, Normalize;
    match DecodeRegister(little, payload)
    case None =>
    case Some((port, files)) =>
      GetBound(little, payload[..2]);
      var stored := Stamped(files, Addr(ip, port));
      forall j | 0 <= j < |stored|
        ensures FileFits(stored[j]) && stored[j].owner == Addr(ip, port)
      {
        DecodedFits(little, RowIn(payload, FILE_BYTES, j));
      }
  }

  lemma UpsertFits(table: seq<PeerSlot>, slot: PeerSlot)
    requires TableFits(table) && SlotFits(slot)
    ensures TableFits(Upsert(table, slot, MAX_PEERS))
  {
    hide SlotFits;
  }

  /** Each request, well-formed or not, either leaves the registry alone or is one registration. */
  lemma ServedStep(little: bool, table: seq<PeerSlot>, r: Request) returns (registration: Option<Registration>)
    requires LabelFits(r.ip) && r.now < UINT64_LIMIT
    ensures Served(little, table, r.ip, r.frame, r.now, r.locks).table
         == if registration.None? then table else Upsert(table, SlotFor(registration.value), MAX_PEERS)
    ensures registration.Some? ==> registration.value.owner.ip == r.ip && SlotFits(SlotFor(registration.value))
  {
    hide DecodeHeader, ErrorMessage, FindOutcome, DecodeRegister, Text, PeersReply, Upsert, Newest, SlotFits, Keys;
    registration := None;
    if |r.frame| == HEADER_BYTES + FILES_BYTES {
      var payload := r.frame[HEADER_BYTES..];
      if Served(little, table, r.ip, r.frame, r.now, r.locks).table != table {
        DecodedRegistration(little, r.ip, payload, r.now);
        var request := DecodeRegister(little, payload).value;
        registration := Some(Registration(Addr(r.ip, request.0), request.1, r.now));
      }
    }
  }

  ghost predicate RegistrationsFit(history: seq<Registration>) {
    forall i :: 0 <= i < |history| ==> SlotFits(SlotFor(history[i]))
  }

  lemma RegisteredOneMore(history: seq<Registration>, r: Registration)
    ensures Registered(history + [r]) == Upsert(Registered(history), SlotFor(r), MAX_PEERS)
  {
    hide Upsert;
    var after := Slots(history + [r]);
    assert after[..|after| - 1] == Slots(history);
  }

  /** Whatever requests a server is sent, its registry is the ordered map of some history of registrations, and every
      record in it fits the message fields. */
  lemma {:induction false} ReachableTable(little: bool, requests: seq<Request>) returns (history: seq<Registration>)
    requires AllFit(requests)
    ensures ServerRun(little, requests) == Registered(history) && RegistrationsFit(history)
    ensures TableFits(ServerRun(little, requests))
  {
    history := [];
    if requests != [] {
      hide Served, SlotFits, Registered, LabelFits, Upsert, SlotFor, TableFits, RegistrationsFit;
      var init := requests[..|requests| - 1];
      history := ReachableTable(little, init);
      var step := ServedStep(little, ServerRun(little, init), requests[|requests| - 1]);
      if step.Some? {
        RegisteredOneMore(history, step.value);
        UpsertFits(ServerRun(little, init), SlotFor(step.value));
        OneMoreFits(history, step.value);
        history := history + [step.value];
      }
    }
  }

  lemma OneMoreFits(history: seq<Registration>, r: Registration)
    requires RegistrationsFit(history) && SlotFits(SlotFor(r))
    ensures RegistrationsFit(history + [r])
  {
    hide LabelFits, SlotFits;
  }

  // --- What a search finds ---

  lemma {:induction false} FlattenedFrom(table: seq<PeerSlot>, f: FileMeta)
    ensures f in Flatten(table) <==> exists i :: 0 <= i < |table| && f in table[i].value.files
  {
    if table != [] {
      FlattenedFrom(table[..|table| - 1], f);
    }
  }

  lemma FoundFit(table: seq<PeerSlot>, term: string)
    requires TableFits(table)
    ensures forall i :: 0 <= i < |Found(table, term)| ==> FileFits(Found(table, term)[i])
    ensures NormalizedFiles(Found(table, term)) == Found(table, term)
  {
    hide Filter, Flatten, Chosen, FileFits, AddrFits;
    var found := Found(table, term);
    forall i | 0 <= i < |found|
      ensures FileFits(found[i]) && NormalizeAddr(found[i].owner) == found[i].owner
    {
      assert found[i] in Filter(Flatten(table), Chosen(term));
      FilteredFrom(Flatten(table), Chosen(term), found[i]);
      FlattenedFrom(table, found[i]);
    }
    assert NormalizedFiles(found) == found;
  }

  ghost predicate IsCText(s: string) {
    forall i :: 0 <= i < |s| ==> 0 < s[i] as int < 256
  }

  lemma TermField(term: string)
    requires IsCText(term)
    ensures Text(Field(term, MAX_TERM)[..MAX_TERM - 1]) == Take(term, MAX_TERM - 1)
  {
    TextOf(Field(term, MAX_TERM)[..MAX_TERM - 1], Take(term, MAX_TERM - 1));
  }

  /** After any run of requests, a client that asks the server for a non-empty term reads, in order, exactly the first
      256 files of the registry that the term asks for, or none if the server did not get the registry's lock; an empty term
      is refused; the search changes nothing.  The machines may differ in byte order, and a term longer than 255 characters
      is cut. */
  lemma FindEndToEnd(server: bool, client: bool, requests: seq<Request>, ip: string, now: nat, locks: Locks, term: string, rest: seq<byte>)
    requires AllFit(requests) && IsCText(term)
    ensures var table := ServerRun(server, requests);
            var served := Served(server, table, ip, FindRequest(client, term), now, locks);
      && served.table == table
      && (term == "" ==> served.reply == ErrorMessage(server, BAD_REQUEST, "find term is empty"))
      && |served.reply| < UINT32_LIMIT
      && ClientReads(client, Frame(served.reply) + rest)
         == if term == "" then None else Some(if locks.first then Take(Selected(Flatten(table), Take(term, 255)), 256) else [])
  {
    hide ServerRun, Frame, ErrorMessage, FilesReply, DecodeFilesReply, NextMessage, Filter, Flatten, Selected, Chosen;
    var table := ServerRun(server, requests);
    ChosenSelects(Flatten(table), Take(term, MAX_TERM - 1));
    var history := ReachableTable(server, requests);
    FindRequestServed(server, client, table, ip, now, locks, term);
    var reply := FindOutcome(server, table, Take(term, MAX_TERM - 1), locks);
    if term == "" {
      ErrorIsNotFiles(server, client, BAD_REQUEST, "find term is empty");
    } else {
      FoundFit(table, Take(term, MAX_TERM - 1));
      var found := if locks.first then Found(table, Take(term, MAX_TERM - 1)) else [];
      FilesReplyRoundTrip(server, client, found);
      FilesReplyLength(server, found);
    }
    NextOfFrame(reply, rest, HEADER_BYTES + FILES_BYTES);
  }

  lemma {:induction false} SelectedIff(files: seq<FileMeta>, term: string, f: FileMeta)
    ensures f in Selected(files, term) <==> f in files && AsksFor(term, f)
  {
    hide AsksFor;
    if files != [] {
      SelectedIff(files[..|files| - 1], term, f);
    }
  }

  /** What a client reads is registered and asked for; when it is fewer than 256 files, it is all of those; and for a term
      that is no identity, asked for means that the term stands in the name. */
  lemma {:induction false} ReadIsAskedFor(table: seq<PeerSlot>, term: string, f: FileMeta)
    ensures var read := Take(Selected(Flatten(table), term), 256);
      && (f in read ==> f in Flatten(table) && AsksFor(term, f))
      && (|read| < 256 && f in Flatten(table) && AsksFor(term, f) ==> f in read)
    ensures (forall size: nat, hash: nat :: !IsIdentity(term, size, hash)) ==>
      (AsksFor(term, f) <==> exists before: string, after: string :: f.name == before + term + after)
  {
    hide Selected, Flatten;
    SelectedIff(Flatten(table), term, f);
  }

  lemma FilesReplyLength(little: bool, files: seq<FileMeta>)
    requires |files| <= MAX_RESULTS
    ensures |FilesReply(little, files)| == HEADER_BYTES + FILES_BYTES
  {
    hide Table, EncodeFile, Put32, EncodeHeader;
    TableLength(FileRows(little, files), FILE_BYTES, MAX_RESULTS);
  }

  lemma ErrorIsNotFiles(writer: bool, reader: bool, code: nat, text: string)
    ensures |ErrorMessage(writer, code, text)| == HEADER_BYTES + ERROR_BYTES
    ensures DecodeFilesReply(reader, ErrorMessage(writer, code, text)) == None
  {
    hide SoundOpcode, Put32, EncodeHeader, Field;
  }

  lemma FindRequestServed(server: bool, client: bool, table: seq<PeerSlot>, ip: string, now: nat, locks: Locks, term: string)
    requires IsCText(term)
    ensures Served(server, table, ip, FindRequest(client, term), now, locks)
         == Outcome(table, FindOutcome(server, table, Take(term, MAX_TERM - 1), locks))
  {
    hide FindOutcome, RegisterOutcome, DecodeRegister, DecodeHeader, EncodeHeader, ErrorMessage, Field, Text;
    TermField(term);
    HeaderRoundTrip(client, server, Header(FIND_REQ, MAX_TERM));
    var frame := FindRequest(client, term);
    assert frame[..HEADER_BYTES] == EncodeHeader(client, Header(FIND_REQ, MAX_TERM));
  }

  /** A client's registration reaches the registry as the client scanned it, whatever the two machines, and the client is
      told of the other peers, unless the registry is full or its lock is not got; when only the second lock fails, the
      registration stands and nobody is told. */
  lemma RegisterEndToEnd(server: bool, client: bool, table: seq<PeerSlot>, ip: string, port: nat, files: seq<FileMeta>, now: nat,
                         locks: Locks)
    requires TableFits(table) && LabelFits(ip) && port < UINT16_LIMIT && now < UINT64_LIMIT
    requires forall i :: 0 <= i < |files| ==> FileFits(files[i])
    ensures var owner := Addr(ip, port);
            var served := Served(server, table, ip, RegisterRequest(client, port, files), now, locks);
      && served.table == (if locks.first then Upsert(table, SlotFor(Registration(owner, files, now)), 64) else table)
      && DecodePeersReply(client, served.reply)
         == if !locks.first || (owner !in Keys(table) && |table| >= 64) then None
            else Some(if locks.second then Take(Newest(served.table, Some(owner)), 16) else [])
  {
    RegisterRequestServed(server, client, table, ip, port, files, now, locks);
    hide Served, Newest, Upsert, DecodePeersReply, PeersReply, ErrorMessage, Keys, Stamped, FileFits, RegisterRequest;
    var owner := Addr(ip, port);
    var slot := SlotFor(Registration(owner, files, now));
    if !locks.first {
      ErrorIsNotPeers(server, client, INTERNAL, "could not update registry");
    } else if owner !in Keys(table) && |table| >= MAX_PEERS {
      ErrorIsNotPeers(server, client, REGISTRY_FULL, "server registry is full");
      FullTableStays(table, slot);
    } else {
      var after := Upsert(table, slot, MAX_PEERS);
      ScannedFits(owner, files, now);
      UpsertFits(table, slot);
      ToldFit(after, owner);
      PeersReplyRoundTrip(server, client, if locks.second then Take(Newest(after, Some(owner)), MAX_TOLD) else []);
    }
  }

  lemma FullTableStays(table: seq<PeerSlot>, slot: PeerSlot)
    requires slot.key !in Keys(table) && |table| >= MAX_PEERS
    ensures Upsert(table, slot, MAX_PEERS) == table
  {
    SlotOf(table, slot.key);
  }

  lemma ScannedFits(owner: Addr, files: seq<FileMeta>, now: nat)
    requires LabelFits(owner.ip) && owner.port < UINT16_LIMIT && now < UINT64_LIMIT
    requires forall i :: 0 <= i < |files| ==> FileFits(files[i])
    ensures SlotFits(SlotFor(Registration(owner, files, now)))
  {
    hide Fits, Normalize;
  }

  lemma ErrorIsNotPeers(writer: bool, reader: bool, code: nat, text: string)
    ensures DecodePeersReply(reader, ErrorMessage(writer, code, text)) == None
  {
    hide SoundOpcode, Put32, EncodeHeader, Field;
  }

  lemma StampedTaken(files: seq<FileMeta>, owner: Addr)
    ensures Stamped(Take(files, MAX_FILES_PER_PEER), owner) == Stamped(files, owner)
  {
  }

  lemma RegisterRequestServed(server: bool, client: bool, table: seq<PeerSlot>, ip: string, port: nat, files: seq<FileMeta>, now: nat,
                              locks: Locks)
    requires port < UINT16_LIMIT && forall i :: 0 <= i < |files| ==> FileFits(files[i])
    ensures Served(server, table, ip, RegisterRequest(client, port, files), now, locks)
         == RegisterOutcome(server, table, ip, Some((port, files)), now, locks)
  {
    hide FindOutcome, DecodeRegister, DecodeHeader, ErrorMessage, Text, RegisterRequest, PeersReply, Newest, Upsert, Stamped, FileFits;
    RegisterRoundTrip(client, server, port, files);
    StampedTaken(files, Addr(ip, port));
  }

  lemma {:induction false} ToldFrom(table: seq<PeerSlot>, exclude: Option<Addr>)
    requires TableFits(table)
    ensures forall k :: 0 <= k < |Newest(table, exclude)| ==>
      PeerFits(Newest(table, exclude)[k]) && NormalizeAddr(Newest(table, exclude)[k].key) == Newest(table, exclude)[k].key
  {
    hide AddrFits, NormalizeAddr;
    if table != [] {
      ToldFrom(table[..|table| - 1], exclude);
    }
  }

  lemma ToldFit(table: seq<PeerSlot>, owner: Addr)
    requires TableFits(table)
    ensures var told := Take(Newest(table, Some(owner)), 16);
      NormalizedPeers(told) == told && forall k :: 0 <= k < |told| ==> PeerFits(told[k])
  {
    hide AddrFits, NormalizeAddr, Newest, PeerFits;
    ToldFrom(table, Some(owner));
    var told := Take(Newest(table, Some(owner)), MAX_TOLD);
    assert NormalizedPeers(told) == told;
  }

  // --- What the results mean for the history of registrations ---

  /** A file the peer registered, last time it did, with the peer's address on it. */
  ghost predicate LatelyRegistered(history: seq<Registration>, f: FileMeta) {
    exists k: nat :: IsLatest(history, f.owner, k) && f in Stamped(history[k].files, f.owner)
  }

  /** Every result was registered by its owner in that peer's last registration and is asked for by the term; and when
      no more than 256 files match, the results are all such files of the first 64 peers. */
  lemma FoundAreRegistered(history: seq<Registration>, term: string, f: FileMeta)
    ensures var table := Registered(history);
            var shared := LatelyRegistered(history, f) && f.owner in Take(Distinct(Owners(history)), 64);
      && (f in Take(Selected(Flatten(table), term), 256) ==> shared && AsksFor(term, f))
      && (|Selected(Flatten(table), term)| <= 256 && shared && AsksFor(term, f) ==> f in Take(Selected(Flatten(table), term), 256))
  {
    hide Selected, Flatten, AsksFor, Registered, Distinct, Stamped, LatelyRegistered;
    SelectedIff(Flatten(Registered(history)), term, f);
    FlattenedFrom(Registered(history), f);
    FilesInTable(history, f);
  }

  lemma FilesInTable(history: seq<Registration>, f: FileMeta)
    ensures (exists i :: 0 <= i < |Registered(history)| && f in Registered(history)[i].value.files)
       <==> LatelyRegistered(history, f) && f.owner in Take(Distinct(Owners(history)), MAX_PEERS)
  {
    hide Registered, Distinct, Stamped, Take, Owners;
    var table := Registered(history);
    RegistryRefinesMap(history);
    if i :| 0 <= i < |table| && f in table[i].value.files {
      assert HoldsLatest(history, table[i]);
      assert Keys(table)[i] == table[i].key;
    }
    if k: nat :| IsLatest(history, f.owner, k) && f in Stamped(history[k].files, f.owner) {
      if f.owner in Keys(table) {
        var i :| 0 <= i < |table| && Keys(table)[i] == f.owner;
        assert HoldsLatest(history, table[i]);
      }
    }
  }
}
