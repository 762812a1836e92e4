/** What the server does with one connection (server/query_handler.c), over the registry. */
module Servers {
  import opened Bytes
  import opened Wrappers
  import opened Addresses
  import opened OrderedMaps
  import opened Registries
  import opened Identity
  import opened TermGrammar
  import opened Texts
  import opened Wire
  import opened Messages

  /** A term that reads as a size and a hash asks for that file; any other is part of a name. */
  function Chosen(term: string): Criterion {
    match ParseTerm(term)
    case Some(id) => ByIdentity(id.hash, id.size)
    case None => ByName(term)
  }

  /** The first 256 files that a term asks for, in the order of the registry. */
  function Found(table: seq<PeerSlot>, term: string): (files: seq<FileMeta>)
    ensures |files| <= MAX_RESULTS
  {
    Take(Filter(Flatten(table), Chosen(term)), MAX_RESULTS)
  }

  // --- What a term asks for, on its characters ---

  /** A term of the identity form asks for the files of that size and hash; any other for the files whose names it stands
      in. */
  ghost predicate AsksFor(term: string, f: FileMeta) {
    if exists size: nat, hash: nat :: IsIdentity(term, size, hash) then IsIdentity(term, f.size, f.hash)
    else exists before: string, after: string :: f.name == before + term + after
  }

  ghost function Selected(files: seq<FileMeta>, term: string): seq<FileMeta> {
    if files == [] then []
    else
      Selected(files[..|files| - 1], term) + (if AsksFor(term, files[|files| - 1]) then [files[|files| - 1]] else [])
  }

  lemma {:induction false} ChosenIff(term: string, f: FileMeta)
    ensures Chosen(term).Matches(f) <==> AsksFor(term, f)
  {
    hide ParseTerm, IsIdentity, Contains;
    match ParseTerm(term) {
      case Some(id) =>
        ParseTermIff(term, id);
        ParseTermIff(term, FileId(f.size, f.hash));
      case None =>
        forall size: nat, hash: nat
          ensures !IsIdentity(term, size, hash)
        {
          ParseTermIff(term, FileId(size, hash));
        }
        ContainsIff(f.name, term);
    }
  }

  /** The criterion the server works with picks exactly the files the term asks for. */
  lemma {:induction false} ChosenSelects(files: seq<FileMeta>, term: string)
    ensures Filter(files, Chosen(term)) == Selected(files, term)
  {
    if files != [] {
      hide Chosen, AsksFor, Criterion.Matches;
      ChosenSelects(files[..|files| - 1], term);
      ChosenIff(term, files[|files| - 1]);
    }
  }

  // The registry after a request, and the reply.
  datatype Outcome = Outcome(table: seq<PeerSlot>, reply: seq<byte>)

  // Whether the registry's lock was got, the first and the second time a request asks for it.
  datatype Locks = Locks(first: bool, second: bool)

  const LOCKED: Locks := Locks(true, true)

  function FindOutcome(little: bool, table: seq<PeerSlot>, term: string, locks: Locks): seq<byte> {
    if term == "" then ErrorMessage(little, BAD_REQUEST, "find term is empty")
    else FilesReply(little, if locks.first then Found(table, term) else [])
  }

  function RegisterOutcome(little: bool, table: seq<PeerSlot>, ip: string, request: Option<(nat, seq<FileMeta>)>, now: nat,
                           locks: Locks): Outcome {
    match request
    case None => Outcome(table, ErrorMessage(little, BAD_REQUEST, "too many files in register request"))
    case Some((port, files)) =>
      var owner := Addr(ip, port);
      if !locks.first then
        Outcome(table, ErrorMessage(little, INTERNAL, "could not update registry"))
      else if owner !in Keys(table) && |table| >= MAX_PEERS then
        Outcome(table, ErrorMessage(little, REGISTRY_FULL, "server registry is full"))
      else
        var after := Upsert(table, SlotFor(Registration(owner, files, now)), MAX_PEERS);
        Outcome(after, PeersReply(little, if locks.second then Take(Newest(after, Some(owner)), MAX_TOLD) else []))
  }

  function Served(little: bool, table: seq<PeerSlot>, ip: string, frame: seq<byte>, now: nat, locks: Locks): Outcome {
    if |frame| < HEADER_BYTES then
      Outcome(table, ErrorMessage(little, BAD_REQUEST, "invalid message header"))
    else
      match DecodeHeader(little, frame[..HEADER_BYTES])
      case None => Outcome(table, ErrorMessage(little, UNSUPPORTED_VERSION, "invalid message header"))
      case Some(Header(opcode, length)) =>
        if length != |frame| - HEADER_BYTES then
          Outcome(table, ErrorMessage(little, BAD_REQUEST, "invalid message header"))
        else if opcode == REGISTER_REQ then
          if length != FILES_BYTES then
            Outcome(table, ErrorMessage(little, BAD_REQUEST, "invalid register payload length"))
          else RegisterOutcome(little, table, ip, DecodeRegister(little, frame[HEADER_BYTES..]), now, locks)
        else if opcode == FIND_REQ then
          if length != MAX_TERM then
            Outcome(table, ErrorMessage(little, BAD_REQUEST, "invalid find payload length"))
          else Outcome(table, FindOutcome(little, table, Text(frame[HEADER_BYTES..][..MAX_TERM - 1]), locks))
        else Outcome(table, ErrorMessage(little, UNKNOWN_OPCODE, "unsupported server opcode"))
  }

  // --- Replies filled in place ---

  function Replaced(s: seq<byte>, at: nat, bytes: seq<byte>): (r: seq<byte>)
    requires at + |bytes| <= |s|
    ensures |r| == |s|
  {
    s[..at] + bytes + s[at + |bytes|..]
  }

  method Store(buffer: array<byte>, at: nat, bytes: seq<byte>)
    requires at + |bytes| <= buffer.Length
    modifies buffer
    ensures buffer[..] == Replaced(old(buffer[..]), at, bytes)
  {
    forall k | 0 <= k < |bytes| {
      buffer[at + k] := bytes[k];
    }
  }

  // A message whose first i rows are in place and the rest still zero.
  ghost function Partly(head: seq<byte>, rows: seq<seq<byte>>, width: nat, capacity: nat, i: nat): seq<byte>
    requires i <= |rows| <= capacity
  {
    head + Table(rows[..i], width, capacity)
  }

  lemma StoreRow(head: seq<byte>, rows: seq<seq<byte>>, width: nat, capacity: nat, i: nat)
    requires AreRows(rows, width) && i < |rows| <= capacity
    ensures var before := Partly(head, rows, width, capacity, i);
            var at := |head| + width * i;
      && |before| == |head| + width * capacity && at + width <= |before|
      && Replaced(before, at, rows[i]) == Partly(head, rows, width, capacity, i + 1)
  {
    hide Concat, Replaced;
    ConcatLength(rows[..i], width);
    RowsFit(width, capacity, i);
    ConcatSnoc(rows, i);
    var left := width * (capacity - i) - width;
    assert left == width * (capacity - (i + 1));
    StoreAfter(head, Concat(rows[..i]), rows[i], left);
  }

  lemma ConcatSnoc(rows: seq<seq<byte>>, i: nat)
    requires i < |rows|
    ensures Concat(rows[..i + 1]) == Concat(rows[..i]) + rows[i]
  {
    assert rows[..i + 1][..i] == rows[..i];
  }

  lemma StoreAfter(head: seq<byte>, done: seq<byte>, row: seq<byte>, n: nat)
    ensures Replaced(head + (done + Zeros(|row| + n)), |head| + |done|, row) == head + ((done + row) + Zeros(n))
  {
    var before := head + (done + Zeros(|row| + n));
    assert before[..|head| + |done|] == head + done;
    assert before[|head| + |done| + |row|..] == Zeros(n);
  }

  lemma RowsFit(width: nat, capacity: nat, i: nat)
    requires i < capacity
    ensures width * i + width * (capacity - i) == width * capacity
    ensures 0 <= width * (capacity - i) - width == width * (capacity - (i + 1))
  {
    var left: nat := capacity - (i + 1);
    Spread(width, i, left + 1);
    Spread(width, left, 1);
    assert width * left >= 0;
  }

  lemma Spread(width: nat, a: nat, b: nat)
    ensures width * a + width * b == width * (a + b)
  {
  }

  /** The header and the count are in place and all else is still zero. */
  lemma NoRowsYet(header: seq<byte>, count: seq<byte>, rows: seq<seq<byte>>, width: nat, capacity: nat)
    requires |rows| <= capacity && |header| == HEADER_BYTES && |count| == 4
    ensures Replaced(Replaced(Zeros(HEADER_BYTES + 8 + width * capacity), 0, header), HEADER_BYTES, count)
         == Partly(header + count + Zeros(4), rows, width, capacity, 0)
  {
    var n := width * capacity;
    assert rows[..0] == [];
    assert Replaced(Zeros(HEADER_BYTES + 8 + n), 0, header) == header + Zeros(8 + n);
    assert Replaced(header + Zeros(8 + n), HEADER_BYTES, count) == header + count + Zeros(4 + n);
    assert Zeros(4 + n) == Zeros(4) + Zeros(n);
  }

  method SendResults(little: bool, results: seq<FileMeta>) returns (reply: seq<byte>)
    requires |results| <= MAX_RESULTS
    ensures reply == FilesReply(little, results)
  {
    hide Table, EncodeHeader, EncodeFile, Put32, Concat, Partly, Replaced;
    var response := new byte[HEADER_BYTES + FILES_BYTES](_ => 0);
    ghost var rows := FileRows(little, results);
    ghost var head := EncodeHeader(little, Header(FIND_RESP, FILES_BYTES)) + Put32(little, |results|) + Zeros(4);
    assert response[..] == Zeros(HEADER_BYTES + FILES_BYTES);
    Store(response, 0, EncodeHeader(little, Header(FIND_RESP, FILES_BYTES)));
    Store(response, HEADER_BYTES, Put32(little, |results|));
    NoRowsYet(EncodeHeader(little, Header(FIND_RESP, FILES_BYTES)), Put32(little, |results|), rows, FILE_BYTES, MAX_RESULTS);
    var i := 0;
    while i < |results|
      invariant i <= |results| && response[..] == Partly(head, rows, FILE_BYTES, MAX_RESULTS, i)
    {
      StoreRow(head, rows, FILE_BYTES, MAX_RESULTS, i);
      Store(response, HEADER_BYTES + 8 + FILE_BYTES * i, EncodeFile(little, results[i]));
      i := i + 1;
    }
    reply := response[..];
    FilledReply(little, FIND_RESP, Put32(little, |results|), rows, FILE_BYTES, MAX_RESULTS);
  }

  /** With all rows in place the buffer is the message. */
  lemma FilledReply(little: bool, opcode: nat, count: seq<byte>, rows: seq<seq<byte>>, width: nat, capacity: nat)
    requires |count| == 4 && AreRows(rows, width) && |rows| <= capacity
    ensures Partly(EncodeHeader(little, Header(opcode, 8 + width * capacity)) + count + Zeros(4), rows, width, capacity, |rows|)
         == Message(little, opcode, count + Zeros(4) + Table(rows, width, capacity))
  {
    hide EncodeHeader, Table;
    TableLength(rows, width, capacity);
    assert rows[..|rows|] == rows;
  }

  method SendRecentPeers(little: bool, recent: seq<PeerEntry>) returns (reply: seq<byte>)
    requires |recent| <= MAX_TOLD
    ensures reply == PeersReply(little, recent)
  {
    hide Table, EncodeHeader, EncodePeer, Put32, Concat, Partly, Replaced;
    var response := new byte[HEADER_BYTES + PEERS_BYTES](_ => 0);
    ghost var rows := PeerRows(little, recent);
    ghost var head := EncodeHeader(little, Header(REGISTER_RESP, PEERS_BYTES)) + Put32(little, |recent|) + Zeros(4);
    assert response[..] == Zeros(HEADER_BYTES + PEERS_BYTES);
    Store(response, 0, EncodeHeader(little, Header(REGISTER_RESP, PEERS_BYTES)));
    Store(response, HEADER_BYTES, Put32(little, |recent|));
    NoRowsYet(EncodeHeader(little, Header(REGISTER_RESP, PEERS_BYTES)), Put32(little, |recent|), rows, PEER_BYTES, MAX_TOLD);
    var i := 0;
    while i < |recent|
      invariant i <= |recent| && response[..] == Partly(head, rows, PEER_BYTES, MAX_TOLD, i)
    {
      StoreRow(head, rows, PEER_BYTES, MAX_TOLD, i);
      Store(response, HEADER_BYTES + 8 + PEER_BYTES * i, EncodePeer(little, recent[i]));
      i := i + 1;
    }
    reply := response[..];
    FilledReply(little, REGISTER_RESP, Put32(little, |recent|), rows, PEER_BYTES, MAX_TOLD);
  }

  // --- The handlers ---

  method HandleFind(little: bool, registry: Registry, payload: seq<byte>, locks: Locks) returns (reply: seq<byte>)
    requires registry.Valid() && |payload| == MAX_TERM
    ensures reply == FindOutcome(little, registry.Contents(), Text(payload[..MAX_TERM - 1]), locks)
    ensures Text(payload[..255]) != "" ==>
      reply == FilesReply(little, if locks.first then Take(Selected(Flatten(registry.Contents()), Text(payload[..255])), 256) else [])
  {
    var term := Text(payload[..MAX_TERM - 1]);
    ChosenSelects(Flatten(registry.Contents()), term);
    if term == "" {
      return ErrorMessage(little, BAD_REQUEST, "find term is empty");
    }
    var isIdentity, size, hash := ParseIdentityFindTerm(term);
    hide ParseTerm, Filter, Flatten, FilesReply, Selected;
    var results: seq<FileMeta>;
    if isIdentity {
      results := registry.Find(ByIdentity(hash as nat, size as nat), MAX_RESULTS, locks.first);
    } else {
      results := registry.Find(ByName(term), MAX_RESULTS, locks.first);
    }
    reply := SendResults(little, results);
  }

  method HandleRegister(little: bool, registry: Registry, ip: string, payload: seq<byte>, now: nat, locks: Locks)
    returns (reply: seq<byte>)
    requires registry.Valid() && |payload| == FILES_BYTES && |ip| < MAX_IP_LEN
    modifies registry, registry.peers
    ensures registry.Valid()
    ensures Outcome(registry.Contents(), reply)
         == RegisterOutcome(little, old(registry.Contents()), ip, DecodeRegister(little, payload), now, locks)
  {
    hide DecodeFile, Get16, Get32, ErrorMessage, PeersReply, Upsert, Newest, Stamped, RowIn;
    var fileCount, dataPort := Get32(little, payload[4..8]), Get16(little, payload[..2]);
    if fileCount > MAX_FILES_PER_PEER {
      return ErrorMessage(little, BAD_REQUEST, "too many files in register request");
    }
    var files := DecodeFiles(little, payload, fileCount);
    var result := registry.RegisterPeer(Addr(ip, dataPort), files, now, locks.first);
    if result.NotLocked? {
      return ErrorMessage(little, INTERNAL, "could not update registry");
    }
    if result.NoRoom? {
      return ErrorMessage(little, REGISTRY_FULL, "server registry is full");
    }
    var recent := registry.RecentPeersExcept(Some(Addr(ip, dataPort)), MAX_TOLD, locks.second);
    reply := SendRecentPeers(little, recent);
  }

  method DecodeFiles(little: bool, payload: seq<byte>, fileCount: nat) returns (files: seq<FileMeta>)
    requires |payload| == FILES_BYTES && fileCount <= MAX_FILES_PER_PEER
    ensures files == seq(fileCount, i requires 0 <= i < fileCount => DecodeFile(little, RowIn(payload, FILE_BYTES, i)))
  {
    hide DecodeFile, RowIn;
    files := [];
    var i := 0;
    while i < fileCount
      invariant i <= fileCount && |files| == i
      invariant forall k :: 0 <= k < i ==> files[k] == DecodeFile(little, RowIn(payload, FILE_BYTES, k))
    {
      files := files + [DecodeFile(little, RowIn(payload, FILE_BYTES, i))];
      i := i + 1;
    }
  }

  /** One request, as client_thread_main receives it: every malformed one is refused with its error and leaves the
      registry as it was. */
  method HandleRequest(little: bool, registry: Registry, ip: string, frame: seq<byte>, now: nat, locks: Locks)
    returns (reply: seq<byte>)
    requires registry.Valid() && |ip| < MAX_IP_LEN
    modifies registry, registry.peers
    ensures registry.Valid()
    ensures Outcome(registry.Contents(), reply) == Served(little, old(registry.Contents()), ip, frame, now, locks)
  {
    hide DecodeHeader, ErrorMessage, RegisterOutcome, FindOutcome, DecodeRegister, Text;
    if |frame| < HEADER_BYTES {
      return ErrorMessage(little, BAD_REQUEST, "invalid message header");
    }
    var header := DecodeHeader(little, frame[..HEADER_BYTES]);
    if header.None? {
      return ErrorMessage(little, UNSUPPORTED_VERSION, "invalid message header");
    }
    var length := header.value.payloadLength;
    if length != |frame| - HEADER_BYTES {
      return ErrorMessage(little, BAD_REQUEST, "invalid message header");
    }
    if header.value.opcode == REGISTER_REQ {
      if length != FILES_BYTES {
        return ErrorMessage(little, BAD_REQUEST, "invalid register payload length");
      }
      reply := HandleRegister(little, registry, ip, frame[HEADER_BYTES..], now, locks);
    } else if header.value.opcode == FIND_REQ {
      if length != MAX_TERM {
        return ErrorMessage(little, BAD_REQUEST, "invalid find payload length");
      }
      reply := HandleFind(little, registry, frame[HEADER_BYTES..], locks);
    } else {
      reply := ErrorMessage(little, UNKNOWN_OPCODE, "unsupported server opcode");
    }
  }
}
