/** The requests and replies between a client and the server, byte for byte (common/protocol.h, client/server_api.c,
    server/query_handler.c), with the checks each side makes of what it receives. */
module Messages {
  import opened Bytes
  import opened Wrappers
  import opened Addresses
  import opened OrderedMaps
  import opened Registries
  import opened Texts
  import opened Wire
  import Chunks

  const PROTOCOL_VERSION: nat := Chunks.PROTOCOL_VERSION
  const HEADER_BYTES: nat := Chunks.HEADER_SIZE

  const REGISTER_REQ: nat := 1
  const REGISTER_RESP: nat := 2
  const FIND_REQ: nat := 3
  const FIND_RESP: nat := 4
  const ERROR_MSG: nat := Chunks.MSG_ERROR

  const BAD_REQUEST: nat := Chunks.ERROR_BAD_REQUEST
  const UNSUPPORTED_VERSION: nat := 2
  const UNKNOWN_OPCODE: nat := 3
  const REGISTRY_FULL: nat := 4
  const INTERNAL: nat := Chunks.ERROR_INTERNAL

  const MAX_TERM: nat := 256
  const MAX_RESULTS: nat := 256
  const MAX_TOLD: nat := 16

  // Table messages: 8 bytes of counts, then a table of fixed size.
  const FILES_BYTES: nat := 81928      // 8 + 256 * 320
  const PEERS_BYTES: nat := 904        // 8 + 16 * 56
  const ERROR_BYTES: nat := Chunks.ERROR_SIZE

  // --- Headers ---

  datatype Header = Header(opcode: nat, payloadLength: nat)

  function EncodeHeader(little: bool, h: Header): (b: seq<byte>)
    ensures |b| == HEADER_BYTES
  {
    Put16(little, h.opcode) + Put16(little, PROTOCOL_VERSION) + Put32(little, h.payloadLength)
  }

  /** Refuses any other version. */
  function DecodeHeader(little: bool, b: seq<byte>): Option<Header>
    requires |b| == HEADER_BYTES
  {
    if Get16(little, b[2..4]) != PROTOCOL_VERSION then None
    else Some(Header(Get16(little, b[..2]), Get32(little, b[4..8])))
  }

  lemma HeaderRoundTrip(writer: bool, reader: bool, h: Header)
    requires h.opcode < UINT16_LIMIT && h.payloadLength < UINT32_LIMIT
    ensures DecodeHeader(reader, EncodeHeader(writer, h)) == Some(h)
  {
    hide Put16, Put32, Get16, Get32;
    var b := EncodeHeader(writer, h);
    assert b[..2] == Put16(writer, h.opcode) && b[2..4] == Put16(writer, PROTOCOL_VERSION);
    assert b[4..8] == Put32(writer, h.payloadLength);
    FieldRoundTrip(writer, reader, h.opcode);
    FieldRoundTrip(writer, reader, PROTOCOL_VERSION);
    FieldRoundTrip(writer, reader, h.payloadLength);
  }

  /** The header a machine fills field by field is, on any machine, the one the transfer frames carry. */
  lemma HeadersAgree(little: bool, h: Header)
    requires h.opcode < UINT16_LIMIT && h.payloadLength < UINT32_LIMIT
    ensures EncodeHeader(little, h) == Chunks.EncodeHeader(h.opcode, h.payloadLength)
  {
    hide Put16, Put32, BigEndian;
    FieldRoundTrip(little, little, h.opcode);
    FieldRoundTrip(little, little, PROTOCOL_VERSION);
    FieldRoundTrip(little, little, h.payloadLength);
  }

  lemma HeaderBytes(little: bool, opcode: nat, length: nat)
    requires opcode < UINT16_LIMIT && length < UINT32_LIMIT
    ensures EncodeHeader(little, Header(opcode, length)) == BigEndian(opcode, 2) + [0, 1] + BigEndian(length, 4)
  {
    hide BigEndian, EncodeHeader;
    HeadersAgree(little, Header(opcode, length));
    TwoBytes(PROTOCOL_VERSION);
  }

  function Message(little: bool, opcode: nat, payload: seq<byte>): (b: seq<byte>)
    ensures |b| == HEADER_BYTES + |payload| && b[HEADER_BYTES..] == payload
  {
    EncodeHeader(little, Header(opcode, |payload|)) + payload
  }

  /** The opcode of a message whose header is sound: long enough, right version, payload length as announced. */
  function SoundOpcode(little: bool, frame: seq<byte>): (r: Option<nat>)
    ensures r.Some? ==> |frame| >= HEADER_BYTES
  {
    if |frame| < HEADER_BYTES then None
    else
      var h := DecodeHeader(little, frame[..HEADER_BYTES]);
      if h.None? || h.value.payloadLength != |frame| - HEADER_BYTES then None else Some(h.value.opcode)
  }

  /** Every message either side sends passes the other side's header checks. */
  lemma MessageIsSound(writer: bool, reader: bool, opcode: nat, payload: seq<byte>)
    requires opcode < UINT16_LIMIT && |payload| < UINT32_LIMIT
    ensures SoundOpcode(reader, Message(writer, opcode, payload)) == Some(opcode)
  {
    hide EncodeHeader, DecodeHeader;
    HeaderRoundTrip(writer, reader, Header(opcode, |payload|));
    assert Message(writer, opcode, payload)[..HEADER_BYTES] == EncodeHeader(writer, Header(opcode, |payload|));
  }

  function ErrorMessage(little: bool, code: nat, text: string): seq<byte> {
    Message(little, ERROR_MSG, Put32(little, code) + Field(text, 256))
  }

  // --- Tables ---

  /** A zeroed table of `capacity` rows with the given rows put first. */
  function Table(rows: seq<seq<byte>>, width: nat, capacity: nat): seq<byte>
  {
    Concat(rows) + Zeros(if |rows| <= capacity then width * (capacity - |rows|) else 0)
  }

  lemma TableLength(rows: seq<seq<byte>>, width: nat, capacity: nat)
    requires AreRows(rows, width) && |rows| <= capacity
    ensures |Table(rows, width, capacity)| == width * capacity
  {
    ConcatLength(rows, width);
  }

  /** Row i of a table that follows 8 bytes of counts. */
  function RowIn(payload: seq<byte>, width: nat, i: nat): (b: seq<byte>)
    requires 8 + width * i + width <= |payload|
    ensures |b| == width
  {
    payload[8 + width * i..8 + width * i + width]
  }

  lemma RowInTable(counts: seq<byte>, rows: seq<seq<byte>>, width: nat, capacity: nat, i: nat)
    requires |counts| == 8 && AreRows(rows, width) && i < |rows| <= capacity
    ensures 8 + width * i + width <= |counts + Table(rows, width, capacity)|
    ensures RowIn(counts + Table(rows, width, capacity), width, i) == rows[i]
  {
    RowAt(rows, width, i);
    var payload := counts + Table(rows, width, capacity);
    assert payload[8..8 + |Concat(rows)|] == Concat(rows);
    assert RowIn(payload, width, i) == Concat(rows)[width * i..width * i + width];
  }

  function FileRows(little: bool, files: seq<FileMeta>): (rows: seq<seq<byte>>)
    ensures |rows| == |files| && AreRows(rows, FILE_BYTES)
  {
    seq(|files|, i requires 0 <= i < |files| => EncodeFile(little, files[i]))
  }

  function PeerRows(little: bool, peers: seq<PeerEntry>): (rows: seq<seq<byte>>)
    ensures |rows| == |peers| && AreRows(rows, PEER_BYTES)
  {
    seq(|peers|, i requires 0 <= i < |peers| => EncodePeer(little, peers[i]))
  }

  // --- REGISTER ---

  function RegisterRequest(little: bool, port: nat, files: seq<FileMeta>): seq<byte> {
    var sent := Take(files, MAX_FILES_PER_PEER);
    Message(little, REGISTER_REQ, Put16(little, port) + Zeros(2) + Put32(little, |sent|)
            + Table(FileRows(little, sent), FILE_BYTES, MAX_FILES_PER_PEER))
  }

  // What the server reads from a register payload; None when the count is over the limit.
  function DecodeRegister(little: bool, payload: seq<byte>): Option<(nat, seq<FileMeta>)>
    requires |payload| == FILES_BYTES
  {
    var count := Get32(little, payload[4..8]);
    if count > MAX_FILES_PER_PEER then None
    else Some((Get16(little, payload[..2]),
               seq(count, i requires 0 <= i < count => DecodeFile(little, RowIn(payload, FILE_BYTES, i)))))
  }

  function PeersReply(little: bool, peers: seq<PeerEntry>): seq<byte> {
    Message(little, REGISTER_RESP, Put32(little, |peers|) + Zeros(4) + Table(PeerRows(little, peers), PEER_BYTES, MAX_TOLD))
  }

  /** What the client makes of the reply to a registration. */
  function DecodePeersReply(little: bool, frame: seq<byte>): Option<seq<PeerEntry>> {
    if SoundOpcode(little, frame) != Some(REGISTER_RESP) || |frame| - HEADER_BYTES != PEERS_BYTES then None
    else
      var payload := frame[HEADER_BYTES..];
      var count := Get32(little, payload[..4]);
      if count > MAX_TOLD then None
      else Some(seq(count, i requires 0 <= i < count => DecodePeer(little, RowIn(payload, PEER_BYTES, i))))
  }

  // --- FIND ---

  function FindRequest(little: bool, term: string): seq<byte> {
    Message(little, FIND_REQ, Field(term, MAX_TERM))
  }

  function FilesReply(little: bool, files: seq<FileMeta>): seq<byte> {
    Message(little, FIND_RESP, Put32(little, |files|) + Zeros(4) + Table(FileRows(little, files), FILE_BYTES, MAX_RESULTS))
  }

  function DecodeFilesReply(little: bool, frame: seq<byte>): Option<seq<FileMeta>> {
    if SoundOpcode(little, frame) != Some(FIND_RESP) || |frame| - HEADER_BYTES != FILES_BYTES then None
    else
      var payload := frame[HEADER_BYTES..];
      var count := Get32(little, payload[..4]);
      if count > MAX_RESULTS then None
      else Some(seq(count, i requires 0 <= i < count => DecodeFoundFile(little, RowIn(payload, FILE_BYTES, i))))
  }

  function NormalizedFiles(files: seq<FileMeta>): (n: seq<FileMeta>)
    ensures |n| == |files| && forall i :: 0 <= i < |n| ==> n[i] == files[i].(owner := NormalizeAddr(files[i].owner))
  {
    seq(|files|, i requires 0 <= i < |files| => files[i].(owner := NormalizeAddr(files[i].owner)))
  }

  function NormalizedPeers(peers: seq<PeerEntry>): (n: seq<PeerEntry>)
    ensures |n| == |peers| && forall i :: 0 <= i < |n| ==> n[i] == Entry(NormalizeAddr(peers[i].key), peers[i].value)
  {
    seq(|peers|, i requires 0 <= i < |peers| => Entry(NormalizeAddr(peers[i].key), peers[i].value))
  }

  // --- Round trips, whatever the two machines ---

  lemma RegisterRoundTrip(writer: bool, reader: bool, port: nat, files: seq<FileMeta>)
    requires port < UINT16_LIMIT && forall i :: 0 <= i < |files| ==> FileFits(files[i])
    ensures var frame := RegisterRequest(writer, port, files);
      && SoundOpcode(reader, frame) == Some(REGISTER_REQ) && |frame| == HEADER_BYTES + FILES_BYTES
      && DecodeRegister(reader, frame[HEADER_BYTES..]) == Some((port, Take(files, 256)))
  {
    hide Table, RowIn, SoundOpcode, Message, EncodeFile, DecodeFile, Put16, Put32, Get16, Get32, Take, FileFits, Concat;
    var sent := Take(files, MAX_FILES_PER_PEER);
    var rows := FileRows(writer, sent);
    var counts := Put16(writer, port) + Zeros(2) + Put32(writer, |sent|);
    var payload := counts + Table(rows, FILE_BYTES, MAX_FILES_PER_PEER);
    TableLength(rows, FILE_BYTES, MAX_FILES_PER_PEER);
    MessageIsSound(writer, reader, REGISTER_REQ, payload);
    FieldRoundTrip(writer, reader, port);
    FieldRoundTrip(writer, reader, |sent|);
    assert payload[..2] == Put16(writer, port) && payload[4..8] == Put32(writer, |sent|);
    var decoded := DecodeRegister(reader, payload).value.1;
    forall i | 0 <= i < |sent|
      ensures decoded[i] == sent[i]
    {
      RowInTable(counts, rows, FILE_BYTES, MAX_FILES_PER_PEER, i);
      FileRoundTrip(writer, reader, sent[i]);
    }
    assert decoded == sent;
  }

  lemma FilesReplyRoundTrip(writer: bool, reader: bool, files: seq<FileMeta>)
    requires |files| <= 256 && forall i :: 0 <= i < |files| ==> FileFits(files[i])
    ensures DecodeFilesReply(reader, FilesReply(writer, files))
         == Some(NormalizedFiles(files))
  {
    hide Table, RowIn, SoundOpcode, Message, EncodeFile, DecodeFoundFile, Put32, Get32, FileFits, Concat, NormalizeAddr;
    var rows := FileRows(writer, files);
    var counts := Put32(writer, |files|) + Zeros(4);
    var payload := counts + Table(rows, FILE_BYTES, MAX_RESULTS);
    TableLength(rows, FILE_BYTES, MAX_RESULTS);
    MessageIsSound(writer, reader, FIND_RESP, payload);
    FieldRoundTrip(writer, reader, |files|);
    assert payload[..4] == Put32(writer, |files|);
    var decoded := DecodeFilesReply(reader, FilesReply(writer, files)).value;
    forall i | 0 <= i < |files|
      ensures decoded[i] == files[i].(owner := NormalizeAddr(files[i].owner))
    {
      RowInTable(counts, rows, FILE_BYTES, MAX_RESULTS, i);
      FileRoundTrip(writer, reader, files[i]);
    }
    assert decoded == NormalizedFiles(files);
  }

  lemma PeersReplyRoundTrip(writer: bool, reader: bool, peers: seq<PeerEntry>)
    requires |peers| <= 16 && forall i :: 0 <= i < |peers| ==> PeerFits(peers[i])
    ensures DecodePeersReply(reader, PeersReply(writer, peers))
         == Some(NormalizedPeers(peers))
  {
    hide Table, RowIn, SoundOpcode, Message, EncodePeer, DecodePeer, Put32, Get32, PeerFits, Concat, NormalizeAddr;
    var rows := PeerRows(writer, peers);
    var counts := Put32(writer, |peers|) + Zeros(4);
    var payload := counts + Table(rows, PEER_BYTES, MAX_TOLD);
    TableLength(rows, PEER_BYTES, MAX_TOLD);
    MessageIsSound(writer, reader, REGISTER_RESP, payload);
    FieldRoundTrip(writer, reader, |peers|);
    assert payload[..4] == Put32(writer, |peers|);
    var decoded := DecodePeersReply(reader, PeersReply(writer, peers)).value;
    forall i | 0 <= i < |peers|
      ensures decoded[i] == Entry(NormalizeAddr(peers[i].key), peers[i].value)
    {
      RowInTable(counts, rows, PEER_BYTES, MAX_TOLD, i);
      PeerRoundTrip(writer, reader, peers[i]);
    }
    assert decoded == NormalizedPeers(peers);
  }
}
