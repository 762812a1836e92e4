/** The fixed-layout records of common/protocol.h as the bytes of a message: text fields, integers in network order,
    and tables of records (client/server_api.c, server/query_handler.c). */
module Wire {
  import opened Bytes
  import opened Texts
  import opened ByteOrder
  import opened Addresses
  import opened OrderedMaps
  import opened Registries

  const MAX_FILENAME: nat := 256
  const FILE_BYTES: nat := 320
  const PEER_BYTES: nat := 56

  // --- Integer fields ---

  function Put16(little: bool, v: nat): (f: seq<byte>)
    ensures |f| == 2
  {
    Memory(little, HostToNet16(little, v), 2)
  }

  function Get16(little: bool, f: seq<byte>): nat {
    HostToNet16(little, Load(little, f))
  }

  function Put32(little: bool, v: nat): (f: seq<byte>)
    ensures |f| == 4
  {
    Memory(little, HostToNet32(little, v), 4)
  }

  function Get32(little: bool, f: seq<byte>): nat {
    HostToNet32(little, Load(little, f))
  }

  function Put64(little: bool, v: nat): (f: seq<byte>)
    ensures |f| == 8
  {
    Memory(little, HostToNet64(little, v), 8)
  }

  function Get64(little: bool, f: seq<byte>): nat {
    NetToHost64(little, Load(little, f))
  }

  /** The bytes of an integer field do not depend on the machine that filled it, nor its value on the one that reads. */
  lemma FieldRoundTrip(writer: bool, reader: bool, v: nat)
    ensures v < UINT16_LIMIT ==> Put16(writer, v) == BigEndian(v, 2) && Get16(reader, Put16(writer, v)) == v
    ensures v < UINT32_LIMIT ==> Put32(writer, v) == BigEndian(v, 4) && Get32(reader, Put32(writer, v)) == v
    ensures v < UINT64_LIMIT ==> Put64(writer, v) == BigEndian(v, 8) && Get64(reader, Put64(writer, v)) == v
  {
    hide *;
    if v < UINT16_LIMIT {
      ShortFieldRoundTrip(writer, reader, v);
    }
    if v < UINT32_LIMIT {
      WordFieldRoundTrip(writer, reader, v);
    }
    if v < UINT64_LIMIT {
      LongFieldRoundTrip(writer, reader, v);
    }
  }

  /** Every machine reads a field as the big-endian number it is on the wire. */
  lemma {:induction false} FieldReads(little: bool, f: seq<byte>)
    ensures |f| == 2 ==> Get16(little, f) == FromBigEndian(f)
    ensures |f| == 4 ==> Get32(little, f) == FromBigEndian(f)
    ensures |f| == 8 ==> Get64(little, f) == FromBigEndian(f)
  {
    hide *;
    PowersOf256();
    BigEndianBound(f);
    BigEndianOfLoad(f);
    if |f| == 2 || |f| == 4 || |f| == 8 {
      FieldRoundTrip(false, little, FromBigEndian(f));
    }
  }

  lemma ShortFieldRoundTrip(writer: bool, reader: bool, v: nat)
    requires v < UINT16_LIMIT
    ensures Put16(writer, v) == BigEndian(v, 2) && Get16(reader, Put16(writer, v)) == v
  {
    hide BigEndian, FromBigEndian, FromLittleEndian, LittleEndian;
    PowersOf256();
    StoreAfterLoad(BigEndian(v, 2));
    BigEndianRoundTrip(v, 2);
    SwapFieldTwice(v, 2);
  }

  lemma WordFieldRoundTrip(writer: bool, reader: bool, v: nat)
    requires v < UINT32_LIMIT
    ensures Put32(writer, v) == BigEndian(v, 4) && Get32(reader, Put32(writer, v)) == v
  {
    hide BigEndian, FromBigEndian, FromLittleEndian, LittleEndian;
    PowersOf256();
    StoreAfterLoad(BigEndian(v, 4));
    BigEndianRoundTrip(v, 4);
    SwapFieldTwice(v, 4);
  }

  lemma LongFieldRoundTrip(writer: bool, reader: bool, v: nat)
    requires v < UINT64_LIMIT
    ensures Put64(writer, v) == BigEndian(v, 8) && Get64(reader, Put64(writer, v)) == v
  {
    hide HostToNet64, BigEndian, FromBigEndian, FromLittleEndian, LittleEndian;
    NetworkOrderBytes(writer, v);
    ByteOrderRoundTrip(writer, reader, v);
  }

  // --- Records ---

  /** encode_file_meta, the same in the client and the server. */
  function EncodeFile(little: bool, f: FileMeta): (b: seq<byte>)
    ensures |b| == FILE_BYTES
  {
    Field(f.name, MAX_FILENAME) + Put64(little, f.hash) + Put64(little, f.size)
    + Field(f.owner.ip, MAX_IP_LEN) + Put16(little, f.owner.port)
  }

  /** The server's decode_file_meta. */
  function DecodeFile(little: bool, b: seq<byte>): FileMeta
    requires |b| == FILE_BYTES
  {
    FileMeta(Text(b[..255]), Get64(little, b[256..264]), Get64(little, b[264..272]),
             Addr(Text(b[272..317]), Get16(little, b[318..320])))
  }

  /** The client's decode_file_meta, which normalises the owner's address. */
  function DecodeFoundFile(little: bool, b: seq<byte>): FileMeta
    requires |b| == FILE_BYTES
  {
    var f := DecodeFile(little, b);
    f.(owner := NormalizeAddr(f.owner))
  }

  function EncodePeer(little: bool, p: PeerEntry): (b: seq<byte>)
    ensures |b| == PEER_BYTES
  {
    Field(p.key.ip, MAX_IP_LEN) + Put16(little, p.key.port) + Put64(little, p.value)
  }

  function DecodePeer(little: bool, b: seq<byte>): PeerEntry
    requires |b| == PEER_BYTES
  {
    Entry(NormalizeAddr(Addr(Text(b[..45]), Get16(little, b[46..48]))), Get64(little, b[48..56]))
  }

  ghost predicate AddrFits(a: Addr) {
    Fits(a.ip, MAX_IP_LEN) && a.port < UINT16_LIMIT
  }

  ghost predicate FileFits(f: FileMeta) {
    Fits(f.name, MAX_FILENAME) && f.hash < UINT64_LIMIT && f.size < UINT64_LIMIT && AddrFits(f.owner)
  }

  ghost predicate PeerFits(p: PeerEntry) {
    AddrFits(p.key) && p.value < UINT64_LIMIT
  }

  /** Whatever the two machines, a file record is decoded by the server as it was encoded, and by the client up to the
      form of the owner's address. */
  lemma FileRoundTrip(writer: bool, reader: bool, f: FileMeta)
    requires FileFits(f)
    ensures DecodeFile(reader, EncodeFile(writer, f)) == f
    ensures DecodeFoundFile(reader, EncodeFile(writer, f)) == f.(owner := NormalizeAddr(f.owner))
  {
    hide Field, Text, Put16, Put64, Get16, Get64;
    var b := EncodeFile(writer, f);
    assert b[..255] == Field(f.name, MAX_FILENAME)[..255];
    assert b[256..264] == Put64(writer, f.hash);
    assert b[264..272] == Put64(writer, f.size);
    assert b[272..317] == Field(f.owner.ip, MAX_IP_LEN)[..45];
    assert b[318..320] == Put16(writer, f.owner.port);
    FieldText(f.name, MAX_FILENAME);
    FieldText(f.owner.ip, MAX_IP_LEN);
    FieldRoundTrip(writer, reader, f.hash);
    FieldRoundTrip(writer, reader, f.size);
    FieldRoundTrip(writer, reader, f.owner.port);
  }

  lemma PeerRoundTrip(writer: bool, reader: bool, p: PeerEntry)
    requires PeerFits(p)
    ensures DecodePeer(reader, EncodePeer(writer, p)) == Entry(NormalizeAddr(p.key), p.value)
  {
    hide Field, Text, Put16, Put64, Get16, Get64;
    var b := EncodePeer(writer, p);
    assert b[..45] == Field(p.key.ip, MAX_IP_LEN)[..45];
    assert b[46..48] == Put16(writer, p.key.port);
    assert b[48..56] == Put64(writer, p.value);
    FieldText(p.key.ip, MAX_IP_LEN);
    FieldRoundTrip(writer, reader, p.key.port);
    FieldRoundTrip(writer, reader, p.value);
  }

  // --- Tables of records ---

  ghost predicate AreRows(rows: seq<seq<byte>>, width: nat) {
    forall i :: 0 <= i < |rows| ==> |rows[i]| == width
  }

  function Concat(rows: seq<seq<byte>>): seq<byte> {
    if rows == [] then [] else Concat(rows[..|rows| - 1]) + rows[|rows| - 1]
  }

  lemma OneRowMore(width: nat, n: nat)
    ensures width * n + width == width * (n + 1) && width * n >= 0
  {
  }

  lemma {:induction false} ConcatLength(rows: seq<seq<byte>>, width: nat)
    requires AreRows(rows, width)
    ensures |Concat(rows)| == width * |rows|
  {
    if rows != [] {
      ConcatLength(rows[..|rows| - 1], width);
      OneRowMore(width, |rows| - 1);
    }
  }

  lemma {:induction false} LastRow(rows: seq<seq<byte>>, width: nat)
    requires AreRows(rows, width) && rows != []
    ensures var init, last := rows[..|rows| - 1], rows[|rows| - 1];
      Concat(rows) == Concat(init) + last && |last| == width && AreRows(init, width)
  {
  }

  /** A row starts where the rows before it end. */
  lemma {:induction false} RowAt(rows: seq<seq<byte>>, width: nat, i: nat)
    requires AreRows(rows, width) && i < |rows|
    ensures width * i + width <= |Concat(rows)|
    ensures Concat(rows)[width * i..width * i + width] == rows[i]
  {
    hide *;
    var init, last := rows[..|rows| - 1], rows[|rows| - 1];
    LastRow(rows, width);
    ConcatLength(init, width);
    if i < |init| {
      RowAt(init, width, i);
      assert init[i] == rows[i];
      SliceOfStart(Concat(init), last, width * i, width * i + width);
    } else {
      SliceOfEnd(Concat(init), last);
    }
  }

  lemma SliceOfStart(s: seq<byte>, t: seq<byte>, a: nat, b: nat)
    requires a <= b <= |s|
    ensures (s + t)[a..b] == s[a..b]
  {
  }

  lemma SliceOfEnd(s: seq<byte>, t: seq<byte>)
    ensures (s + t)[|s|..|s| + |t|] == t
  {
  }
}
