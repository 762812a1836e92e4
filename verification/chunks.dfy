/** The TRANSFER_DATA frame of common/protocol.h as bytes, and what a receiver reads out of it
    (transfer/sender.c, transfer/receiver.c). */
module Chunks {
  import opened Bytes
  import opened Wrappers

  const HEADER_SIZE: nat := 8         // p2p_msg_header_t
  const DATA_HEADER_SIZE: nat := 32   // transfer_data_header_t: 28 bytes of fields, 4 of padding
  const CHUNK_SIZE: nat := 16384
  const FRAME_CAPACITY: nat := HEADER_SIZE + DATA_HEADER_SIZE + CHUNK_SIZE

  const PROTOCOL_VERSION: nat := 1
  const MSG_TRANSFER_DATA: nat := 6
  const MSG_ERROR: nat := 255
  const ERROR_SIZE: nat := 260
  const ERROR_BAD_REQUEST: nat := 1
  const ERROR_INTERNAL: nat := 5

  // A request for the bytes first..last, both included, of the file (hash, size).
  datatype Request = Request(hash: nat, size: nat, first: nat, last: nat) {
    predicate Valid() {
      && hash < UINT64_LIMIT && size < UINT64_LIMIT
      && first <= last < size
    }

    function Length(): nat
      requires Valid()
    {
      last - first + 1
    }
  }

  datatype Chunk = Chunk(hash: nat, size: nat, start: nat, data: seq<byte>) {
    predicate Encodable() {
      && hash < UINT64_LIMIT && size < UINT64_LIMIT && start < UINT64_LIMIT
      && 1 <= |data| <= CHUNK_SIZE
    }
  }

  function EncodeHeader(opcode: nat, payloadLength: nat): (h: seq<byte>)
    ensures |h| == HEADER_SIZE
  {
    BigEndian(opcode, 2) + BigEndian(PROTOCOL_VERSION, 2) + BigEndian(payloadLength, 4)
  }

  /** The frame as its C struct lies in memory; the padding of the data header is whatever it was. */
  function EncodeChunk(c: Chunk, padding: seq<byte>): (f: seq<byte>)
    requires |padding| == 4
    ensures |f| == HEADER_SIZE + DATA_HEADER_SIZE + |c.data|
  {
    EncodeHeader(MSG_TRANSFER_DATA, DATA_HEADER_SIZE + |c.data|)
    + (BigEndian(c.hash, 8) + BigEndian(c.size, 8) + BigEndian(c.start, 8) + BigEndian(|c.data|, 4))
    + padding
    + c.data
  }

  /** The checks receive_segment_frames makes of a frame on its own, and the fields it then reads. */
  function ParseChunk(frame: seq<byte>): (c: Option<Chunk>)
    ensures c.Some? ==> c.value.Encodable()
  {
    PowersOf256();
    if |frame| < HEADER_SIZE + DATA_HEADER_SIZE then None
    else
      var payloadLength := FromBigEndian(frame[4..8]);
      var length := FromBigEndian(frame[32..36]);
      if FromBigEndian(frame[2..4]) != PROTOCOL_VERSION || FromBigEndian(frame[0..2]) != MSG_TRANSFER_DATA
         || payloadLength != |frame| - HEADER_SIZE then None
      else if length == 0 || length > CHUNK_SIZE || DATA_HEADER_SIZE + length != payloadLength then None
      else
        BigEndianBound(frame[8..16]);
        BigEndianBound(frame[16..24]);
        BigEndianBound(frame[24..32]);
        Some(Chunk(FromBigEndian(frame[8..16]), FromBigEndian(frame[16..24]), FromBigEndian(frame[24..32]),
                   frame[40..40 + length]))
  }

  /** The checks it makes of a frame against the request and what has been received so far. */
  predicate Accepts(c: Chunk, r: Request, received: nat) {
    && c.hash == r.hash && c.size == r.size
    && r.first <= c.start <= r.last && c.start == r.first + received
    && |c.data| <= r.last - c.start + 1
  }

  lemma HeaderFields(opcode: nat, payloadLength: nat, rest: seq<byte>)
    requires opcode < UINT16_LIMIT && payloadLength < UINT32_LIMIT
    ensures var f := EncodeHeader(opcode, payloadLength) + rest;
            FromBigEndian(f[0..2]) == opcode && FromBigEndian(f[2..4]) == PROTOCOL_VERSION
            && FromBigEndian(f[4..8]) == payloadLength
  {
    PowersOf256();
    var f := EncodeHeader(opcode, payloadLength) + rest;
    assert f[0..2] == BigEndian(opcode, 2);
    assert f[2..4] == BigEndian(PROTOCOL_VERSION, 2);
    assert f[4..8] == BigEndian(payloadLength, 4);
    BigEndianRoundTrip(opcode, 2);
    BigEndianRoundTrip(PROTOCOL_VERSION, 2);
    BigEndianRoundTrip(payloadLength, 4);
  }

  /** Fields of 8, 8, 8 and 4 bytes after `before`, read back. */
  lemma DataHeaderFields(before: seq<byte>, c: Chunk, after: seq<byte>)
    requires |before| == HEADER_SIZE && c.Encodable()
    ensures var f := before + (BigEndian(c.hash, 8) + BigEndian(c.size, 8) + BigEndian(c.start, 8) + BigEndian(|c.data|, 4))
                     + after;
            FromBigEndian(f[8..16]) == c.hash && FromBigEndian(f[16..24]) == c.size
            && FromBigEndian(f[24..32]) == c.start && FromBigEndian(f[32..36]) == |c.data|
  {
    PowersOf256();
    hide BigEndian, FromBigEndian;
    var f := before + (BigEndian(c.hash, 8) + BigEndian(c.size, 8) + BigEndian(c.start, 8) + BigEndian(|c.data|, 4)) + after;
    assert f[8..16] == BigEndian(c.hash, 8);
    assert f[16..24] == BigEndian(c.size, 8);
    assert f[24..32] == BigEndian(c.start, 8);
    assert f[32..36] == BigEndian(|c.data|, 4);
    BigEndianRoundTrip(c.hash, 8);
    BigEndianRoundTrip(c.size, 8);
    BigEndianRoundTrip(c.start, 8);
    BigEndianRoundTrip(|c.data|, 4);
  }

  /** What the sender encodes is what the receiver reads, whatever the padding holds. */
  lemma ChunkRoundTrip(c: Chunk, padding: seq<byte>)
    requires c.Encodable() && |padding| == 4
    ensures ParseChunk(EncodeChunk(c, padding)) == Some(c)
  {
    hide BigEndian, FromBigEndian, EncodeHeader;
    var header := EncodeHeader(MSG_TRANSFER_DATA, DATA_HEADER_SIZE + |c.data|);
    var fields := BigEndian(c.hash, 8) + BigEndian(c.size, 8) + BigEndian(c.start, 8) + BigEndian(|c.data|, 4);
    var f := EncodeChunk(c, padding);
    assert f == header + (fields + padding + c.data);
    HeaderFields(MSG_TRANSFER_DATA, DATA_HEADER_SIZE + |c.data|, fields + padding + c.data);
    assert f == header + fields + (padding + c.data);
    DataHeaderFields(header, c, padding + c.data);
    assert f[40..40 + |c.data|] == c.data;
  }

  /** The listener's reply to a request it cannot serve: an ERROR frame, which no receiver takes for data. */
  function EncodeError(payload: seq<byte>): (f: seq<byte>)
    requires |payload| == ERROR_SIZE
    ensures |f| == HEADER_SIZE + ERROR_SIZE
  {
    EncodeHeader(MSG_ERROR, ERROR_SIZE) + payload
  }

  lemma ErrorIsNotChunk(payload: seq<byte>)
    requires |payload| == ERROR_SIZE
    ensures ParseChunk(EncodeError(payload)).None?
  {
    HeaderFields(MSG_ERROR, ERROR_SIZE, payload);
  }

  /** The receiver takes a frame for a chunk exactly when it is, byte for byte, what a sender makes of that chunk, whatever is in
      the four bytes of padding. */
  lemma ChunkIff(frame: seq<byte>, c: Chunk)
    ensures ParseChunk(frame) == Some(c) <==>
      && c.hash < UINT64_LIMIT && c.size < UINT64_LIMIT && c.start < UINT64_LIMIT && 1 <= |c.data| <= 16384
      && |frame| == 40 + |c.data|
      && frame[..4] == [0, 6, 0, 1] && frame[4..8] == BigEndian(32 + |c.data|, 4)
      && frame[8..16] == BigEndian(c.hash, 8) && frame[16..24] == BigEndian(c.size, 8)
      && frame[24..32] == BigEndian(c.start, 8) && frame[32..36] == BigEndian(|c.data|, 4)
      && frame[40..] == c.data
  {
    hide BigEndian, FromBigEndian;
    PowersOf256();
    if |frame| >= 40 {
      FieldIs(frame[4..8], 32 + |c.data|);
      FieldIs(frame[8..16], c.hash);
      FieldIs(frame[16..24], c.size);
      FieldIs(frame[24..32], c.start);
      FieldIs(frame[32..36], |c.data|);
      DataFrameStart(frame);
      assert |frame| == 40 + |c.data| ==> frame[40..40 + |c.data|] == frame[40..];
    }
  }

  lemma {:induction false} FieldIs(f: seq<byte>, n: nat)
    ensures n < Pow256(|f|) && f == BigEndian(n, |f|) <==> FromBigEndian(f) == n
  {
    BigEndianBound(f);
    BigEndianOfLoad(f);
    if n < Pow256(|f|) {
      BigEndianRoundTrip(n, |f|);
    }
  }

  lemma DataFrameStart(frame: seq<byte>)
    requires |frame| >= 4
    ensures frame[..4] == [0, 6, 0, 1] <==>
      FromBigEndian(frame[0..2]) == MSG_TRANSFER_DATA && FromBigEndian(frame[2..4]) == PROTOCOL_VERSION
  {
    hide BigEndian, FromBigEndian;
    PowersOf256();
    FieldIs(frame[0..2], 6);
    FieldIs(frame[2..4], 1);
    TwoBytes(6);
    TwoBytes(1);
    assert frame[..4] == frame[0..2] + frame[2..4];
    StartParts(frame[0..2], frame[2..4]);
  }

  lemma StartParts(a: seq<byte>, b: seq<byte>)
    requires |a| == 2 && |b| == 2
    ensures a + b == [0, 6, 0, 1] <==> a == [0, 6] && b == [0, 1]
  {
    if a + b == [0, 6, 0, 1] {
      assert a == (a + b)[..2] && b == (a + b)[2..];
    }
  }
}
