/** The messages as bytes on the wire, number by number (common/protocol.h), and the replies to requests the server
    refuses (server/query_handler.c). */
module OnWire {
  import opened Bytes
  import opened Wrappers
  import opened Texts
  import opened Addresses
  import opened OrderedMaps
  import opened Registries
  import opened Wire
  import opened Messages
  import Chunks
  import opened Servers

  // --- Headers ---

  /** A message has a sound header exactly when it carries version 1 and the length it has; the opcode is then its first two
      bytes. */
  lemma SoundIff(little: bool, frame: seq<byte>, opcode: nat)
    ensures SoundOpcode(little, frame) == Some(opcode) <==>
      |frame| >= 8 && frame[2..4] == [0, 1] && FromBigEndian(frame[4..8]) == |frame| - 8 && FromBigEndian(frame[..2]) == opcode
  {
    hide Get16, Get32, FromBigEndian;
    if |frame| >= 8 {
      var h := frame[..8];
      assert h[2..4] == frame[2..4] && h[4..8] == frame[4..8] && h[..2] == frame[..2];
      FieldReads(little, frame[2..4]);
      FieldReads(little, frame[4..8]);
      FieldReads(little, frame[..2]);
      VersionOne(frame[2..4]);
    }
  }

  lemma VersionOne(f: seq<byte>)
    requires |f| == 2
    ensures FromBigEndian(f) == 1 <==> f == [0, 1]
  {
    hide BigEndian, FromBigEndian;
    PowersOf256();
    Chunks.FieldIs(f, 1);
    TwoBytes(1);
  }

  /** How each message begins: its opcode, version 1, and the length of what follows. */
  lemma MessagesBegin(little: bool, port: nat, files: seq<FileMeta>, peers: seq<PeerEntry>, term: string, code: nat, text: string)
    requires |files| <= 256 && |peers| <= 16
    ensures RegisterRequest(little, port, files)[..8] == [0, 1, 0, 1, 0, 1, 64, 8]
    ensures PeersReply(little, peers)[..8] == [0, 2, 0, 1, 0, 0, 3, 136]
    ensures FindRequest(little, term)[..8] == [0, 3, 0, 1, 0, 0, 1, 0]
    ensures FilesReply(little, files)[..8] == [0, 4, 0, 1, 0, 1, 64, 8]
    ensures ErrorMessage(little, code, text)[..8] == [0, 255, 0, 1, 0, 0, 1, 4]
  {
    hide EncodeHeader, Table, EncodeFile, EncodePeer, Put16, Put32, Field;
    var sent := Take(files, 256);
    assert sent == files;
    TableLength(FileRows(little, sent), FILE_BYTES, 256);
    TableLength(FileRows(little, files), FILE_BYTES, 256);
    TableLength(PeerRows(little, peers), PEER_BYTES, 16);
    Begins(little, 1, 81928);
    Begins(little, 2, 904);
    Begins(little, 3, 256);
    Begins(little, 4, 81928);
    Begins(little, 255, 260);
  }

  lemma Begins(little: bool, opcode: nat, length: nat)
    requires opcode < 256 && length < UINT32_LIMIT
    ensures var h := EncodeHeader(little, Header(opcode, length));
      && |h| == 8 && h == [0, ToByte(opcode), 0, 1] + [ToByte(length / 256 / 256 / 256 % 256), ToByte(length / 256 / 256 % 256),
                                                      ToByte(length / 256 % 256), ToByte(length % 256)]
  {
    HeaderBytes(little, opcode, length);
    TwoBytes(opcode);
    FourBytes(length);
  }

  /** The client takes a message for the reply to a search exactly when it is of that opcode and of the one length such replies
      have, and counts at most 256 files; and for the reply to a registration likewise, with at most 16 peers. */
  lemma RepliesAccepted(little: bool, frame: seq<byte>)
    ensures DecodeFilesReply(little, frame).Some? <==>
      |frame| == 81936 && frame[..8] == [0, 4, 0, 1, 0, 1, 64, 8] && FromBigEndian(frame[8..12]) <= 256
    ensures DecodeFilesReply(little, frame).Some? ==> |DecodeFilesReply(little, frame).value| == FromBigEndian(frame[8..12])
    ensures DecodePeersReply(little, frame).Some? <==>
      |frame| == 912 && frame[..8] == [0, 2, 0, 1, 0, 0, 3, 136] && FromBigEndian(frame[8..12]) <= 16
    ensures DecodePeersReply(little, frame).Some? ==> |DecodePeersReply(little, frame).value| == FromBigEndian(frame[8..12])
  {
    hide SoundOpcode, FromBigEndian, Get32, DecodeFoundFile, DecodePeer, RowIn;
    SoundIff(little, frame, 4);
    SoundIff(little, frame, 2);
    if |frame| >= 12 {
      assert frame[8..][..4] == frame[8..12];
      FieldReads(little, frame[8..12]);
      HeaderIs(frame, 4, 81928);
      HeaderIs(frame, 2, 904);
      FourBytes(81928);
      FourBytes(904);
    }
  }

  lemma HeaderIs(frame: seq<byte>, opcode: nat, length: nat)
    requires |frame| >= 8 && opcode < 256 && length < UINT32_LIMIT
    ensures frame[..8] == [0, ToByte(opcode), 0, 1] + BigEndian(length, 4) <==>
      frame[2..4] == [0, 1] && FromBigEndian(frame[..2]) == opcode && FromBigEndian(frame[4..8]) == length
  {
    hide BigEndian, FromBigEndian;
    PowersOf256();
    Chunks.FieldIs(frame[..2], opcode);
    Chunks.FieldIs(frame[4..8], length);
    TwoBytes(opcode);
    assert frame[..8] == frame[..2] + frame[2..4] + frame[4..8];
    HeaderParts(frame[..2], frame[2..4], frame[4..8], [0, ToByte(opcode)], BigEndian(length, 4));
  }

  lemma HeaderParts(a: seq<byte>, b: seq<byte>, c: seq<byte>, x: seq<byte>, z: seq<byte>)
    requires |a| == 2 && |b| == 2 && |c| == 4 && |x| == 2 && |z| == 4
    ensures a + b + c == [x[0], x[1], 0, 1] + z <==> a == x && b == [0, 1] && c == z
  {
    var all := a + b + c;
    if all == [x[0], x[1], 0, 1] + z {
      assert a == all[..2] && b == all[2..4] && c == all[4..];
    }
  }

  // --- Records ---

  lemma FileBytes(little: bool, f: FileMeta)
    requires f.hash < UINT64_LIMIT && f.size < UINT64_LIMIT && f.owner.port < UINT16_LIMIT
    ensures EncodeFile(little, f)
         == Field(f.name, 256) + BigEndian(f.hash, 8) + BigEndian(f.size, 8) + Field(f.owner.ip, 46) + BigEndian(f.owner.port, 2)
  {
    hide Put16, Put64, BigEndian, Field;
    FieldRoundTrip(little, little, f.hash);
    FieldRoundTrip(little, little, f.size);
    FieldRoundTrip(little, little, f.owner.port);
  }

  lemma PeerBytes(little: bool, p: PeerEntry)
    requires p.value < UINT64_LIMIT && p.key.port < UINT16_LIMIT
    ensures EncodePeer(little, p) == Field(p.key.ip, 46) + BigEndian(p.key.port, 2) + BigEndian(p.value, 8)
  {
    hide Put16, Put64, BigEndian, Field;
    FieldRoundTrip(little, little, p.key.port);
    FieldRoundTrip(little, little, p.value);
  }

  // --- Refusals ---

  /** The code of an ERROR message. */
  function ErrorCode(frame: seq<byte>): Option<nat> {
    if |frame| == 268 && frame[..8] == [0, 255, 0, 1, 0, 0, 1, 4] then Some(FromBigEndian(frame[8..12])) else None
  }

  lemma ErrorCodeOf(little: bool, code: nat, text: string)
    requires code < UINT32_LIMIT
    ensures ErrorCode(ErrorMessage(little, code, text)) == Some(code)
  {
    hide Put32, Field, FromBigEndian, BigEndian, EncodeHeader;
    MessagesBegin(little, 0, [], [], "", code, text);
    FieldRoundTrip(little, little, code);
    PowersOf256();
    BigEndianRoundTrip(code, 4);
    var m := ErrorMessage(little, code, text);
    assert m[8..12] == m[8..][..4] == Put32(little, code);
  }

  /** What is wrong with a request, by its bytes: too short, of another version, of another length than it says, of an opcode
      the server has no use for, or of a length that is not its opcode's. */
  ghost function Fault(frame: seq<byte>): Option<nat> {
    if |frame| < 8 then Some(1)
    else if frame[2..4] != [0, 1] then Some(2)
    else if FromBigEndian(frame[4..8]) != |frame| - 8 then Some(1)
    else if frame[..2] == [0, 1] then (if |frame| != 8 + 81928 then Some(1) else None)
    else if frame[..2] == [0, 3] then (if |frame| != 8 + 256 then Some(1) else None)
    else Some(3)
  }

  /** Every faulty request is answered by its error code, and changes nothing; so are a registration of more than 256 files, one
      without the lock, one of a new peer when there are 64, and a search for nothing. */
  lemma Refused(little: bool, table: seq<PeerSlot>, ip: string, frame: seq<byte>, now: nat, locks: Locks)
    ensures var o := Served(little, table, ip, frame, now, locks);
      && (Fault(frame).Some? ==> o.table == table && ErrorCode(o.reply) == Fault(frame))
      && (Fault(frame).None? && frame[..2] == [0, 3] && frame[8] == 0 ==> o.table == table && ErrorCode(o.reply) == Some(1))
      && (Fault(frame).None? && frame[..2] == [0, 1] && RegisterFault(table, ip, frame, locks).Some? ==>
            o.table == table && ErrorCode(o.reply) == RegisterFault(table, ip, frame, locks))
  {
    hide DecodeHeader, RegisterOutcome, FindOutcome, DecodeRegister, ErrorMessage, ErrorCode, FromBigEndian, Text;
    HeaderFault(little, table, ip, frame, now, locks);
    if Fault(frame).None? {
      if frame[..2] == [0, 1] {
        RegisterRefused(little, table, ip, frame, now, locks);
      } else {
        FindRefused(little, table, ip, frame, now, locks);
      }
    }
  }

  /** The three ways a well-formed registration is refused. */
  ghost function RegisterFault(table: seq<PeerSlot>, ip: string, frame: seq<byte>, locks: Locks): Option<nat>
    requires |frame| == 8 + 81928
  {
    if FromBigEndian(frame[12..16]) > 256 then Some(1)
    else if !locks.first then Some(5)
    else if Addr(ip, FromBigEndian(frame[8..10])) !in Keys(table) && |table| >= 64 then Some(4)
    else None
  }

  /** What the header decides. */
  lemma HeaderDecides(little: bool, frame: seq<byte>)
    requires |frame| >= 8
    ensures DecodeHeader(little, frame[..8])
         == if frame[2..4] == [0, 1] then Some(Header(FromBigEndian(frame[..2]), FromBigEndian(frame[4..8]))) else None
    ensures FromBigEndian(frame[..2]) == 1 <==> frame[..2] == [0, 1]
    ensures FromBigEndian(frame[..2]) == 3 <==> frame[..2] == [0, 3]
  {
    hide Get16, Get32, FromBigEndian;
    var h := frame[..8];
    assert h[2..4] == frame[2..4] && h[4..8] == frame[4..8] && h[..2] == frame[..2];
    FieldReads(little, frame[2..4]);
    FieldReads(little, frame[4..8]);
    FieldReads(little, frame[..2]);
    VersionOne(frame[2..4]);
    VersionOne(frame[..2]);
    ThreeIs(frame[..2]);
  }

  lemma ThreeIs(f: seq<byte>)
    requires |f| == 2
    ensures FromBigEndian(f) == 3 <==> f == [0, 3]
  {
    hide BigEndian, FromBigEndian;
    PowersOf256();
    Chunks.FieldIs(f, 3);
    TwoBytes(3);
  }

  lemma HeaderFault(little: bool, table: seq<PeerSlot>, ip: string, frame: seq<byte>, now: nat, locks: Locks)
    ensures var o := Served(little, table, ip, frame, now, locks);
      && (Fault(frame).Some? ==> o.table == table && ErrorCode(o.reply) == Fault(frame))
      && (Fault(frame).None? ==> o == if frame[..2] == [0, 1]
            then RegisterOutcome(little, table, ip, DecodeRegister(little, frame[8..]), now, locks)
            else Outcome(table, FindOutcome(little, table, Text(frame[8..][..255]), locks)))
  {
    hide DecodeHeader, RegisterOutcome, FindOutcome, DecodeRegister, ErrorMessage, ErrorCode, FromBigEndian, Text;
    if |frame| >= 8 {
      HeaderDecides(little, frame);
    }
    ErrorCodeOf(little, 1, "invalid message header");
    ErrorCodeOf(little, 2, "invalid message header");
    ErrorCodeOf(little, 1, "invalid register payload length");
    ErrorCodeOf(little, 1, "invalid find payload length");
    ErrorCodeOf(little, 3, "unsupported server opcode");
  }

  lemma RegisterRefused(little: bool, table: seq<PeerSlot>, ip: string, frame: seq<byte>, now: nat, locks: Locks)
    requires |frame| == 8 + 81928
    ensures var o := RegisterOutcome(little, table, ip, DecodeRegister(little, frame[8..]), now, locks);
      RegisterFault(table, ip, frame, locks).Some? ==> o.table == table && ErrorCode(o.reply) == RegisterFault(table, ip, frame, locks)
  {
    hide ErrorMessage, ErrorCode, FromBigEndian, Get16, Get32, DecodeFile, RowIn, PeersReply, Newest, Upsert, Keys;
    var payload := frame[8..];
    assert payload[4..8] == frame[12..16] && payload[..2] == frame[8..10];
    FieldReads(little, payload[4..8]);
    FieldReads(little, payload[..2]);
    ErrorCodeOf(little, 1, "too many files in register request");
    ErrorCodeOf(little, 4, "server registry is full");
    ErrorCodeOf(little, 5, "could not update registry");
  }

  lemma FindRefused(little: bool, table: seq<PeerSlot>, ip: string, frame: seq<byte>, now: nat, locks: Locks)
    requires |frame| == 8 + 256
    ensures frame[8] == 0 ==> ErrorCode(FindOutcome(little, table, Text(frame[8..][..255]), locks)) == Some(1)
  {
    hide ErrorMessage, ErrorCode, FilesReply;
    ErrorCodeOf(little, 1, "find term is empty");
    assert frame[8..][..255][0] == frame[8];
  }
}
