/** A peer's answer to a transfer request (transfer/listener.c): the range, or an ERROR reply, which also follows a range
    that could not be sent to its end. */
module Listener {
  import opened Bytes
  import opened Wrappers
  import opened Texts
  import opened Files
  import opened Framing
  import opened Sockets
  import opened Chunks
  import opened Serving
  import opened Receiver
  import opened Sender

  const MSG_TRANSFER_REQ: nat := 5
  const REQUEST_SIZE: nat := 32

  /** send_transfer_request: the frame a receiver asks for a segment with. */
  function EncodeRequest(s: Segment): (f: seq<byte>)
    ensures |f| == HEADER_SIZE + REQUEST_SIZE
  {
    EncodeHeader(MSG_TRANSFER_REQ, REQUEST_SIZE)
    + (BigEndian(s.hash as nat, 8) + BigEndian(s.size as nat, 8) + BigEndian(s.byteStart as nat, 8) + BigEndian(s.byteEnd as nat, 8))
  }

  function Field64(frame: seq<byte>, at: nat): uint64
    requires at + 8 <= |frame|
  {
    PowersOf256();
    BigEndianBound(frame[at..at + 8]);
    FromBigEndian(frame[at..at + 8]) as uint64
  }

  function ParseRequest(frame: seq<byte>): Option<Segment> {
    if |frame| != HEADER_SIZE + REQUEST_SIZE then None
    else if FromBigEndian(frame[2..4]) != PROTOCOL_VERSION || FromBigEndian(frame[0..2]) != MSG_TRANSFER_REQ
            || FromBigEndian(frame[4..8]) != REQUEST_SIZE then None
    else Some(Segment(Field64(frame, 8), Field64(frame, 16), Field64(frame, 24), Field64(frame, 32)))
  }

  /** What a receiver asks for is what the listener reads. */
  lemma RequestRoundTrip(s: Segment)
    ensures ParseRequest(EncodeRequest(s)) == Some(s)
  {
    hide BigEndian, FromBigEndian, EncodeHeader;
    PowersOf256();
    var f := EncodeRequest(s);
    HeaderFields(MSG_TRANSFER_REQ, REQUEST_SIZE, f[HEADER_SIZE..]);
    assert f == EncodeHeader(MSG_TRANSFER_REQ, REQUEST_SIZE) + f[HEADER_SIZE..];
    assert f[8..16] == BigEndian(s.hash as nat, 8) && f[16..24] == BigEndian(s.size as nat, 8);
    assert f[24..32] == BigEndian(s.byteStart as nat, 8) && f[32..40] == BigEndian(s.byteEnd as nat, 8);
    BigEndianRoundTrip(s.hash as nat, 8);
    BigEndianRoundTrip(s.size as nat, 8);
    BigEndianRoundTrip(s.byteStart as nat, 8);
    BigEndianRoundTrip(s.byteEnd as nat, 8);
  }

  /** The listener takes a frame for a request exactly when it is, byte for byte, what a receiver sends for it. */
  lemma RequestIff(frame: seq<byte>, s: Segment)
    ensures ParseRequest(frame) == Some(s) <==>
      && |frame| == 40 && frame[..8] == [0, 5, 0, 1, 0, 0, 0, 32]
      && frame[8..16] == BigEndian(s.hash as nat, 8) && frame[16..24] == BigEndian(s.size as nat, 8)
      && frame[24..32] == BigEndian(s.byteStart as nat, 8) && frame[32..40] == BigEndian(s.byteEnd as nat, 8)
  {
    hide BigEndian, FromBigEndian;
    PowersOf256();
    if |frame| == 40 {
      FieldIs(frame[8..16], s.hash as nat);
      FieldIs(frame[16..24], s.size as nat);
      FieldIs(frame[24..32], s.byteStart as nat);
      FieldIs(frame[32..40], s.byteEnd as nat);
      RequestStart(frame);
    }
  }

  lemma RequestStart(frame: seq<byte>)
    requires |frame| >= 8
    ensures frame[..8] == [0, 5, 0, 1, 0, 0, 0, 32] <==>
      FromBigEndian(frame[0..2]) == MSG_TRANSFER_REQ && FromBigEndian(frame[2..4]) == PROTOCOL_VERSION
      && FromBigEndian(frame[4..8]) == REQUEST_SIZE
  {
    hide BigEndian, FromBigEndian;
    PowersOf256();
    FieldIs(frame[0..2], 5);
    FieldIs(frame[2..4], 1);
    FieldIs(frame[4..8], 32);
    TwoBytes(5);
    TwoBytes(1);
    FourBytes(32);
    assert frame[..8] == frame[0..2] + frame[2..4] + frame[4..8];
    ThreeParts(frame[0..2], frame[2..4], frame[4..8]);
  }

  lemma ThreeParts(a: seq<byte>, b: seq<byte>, c: seq<byte>)
    requires |a| == 2 && |b| == 2 && |c| == 4
    ensures a + b + c == [0, 5, 0, 1, 0, 0, 0, 32] <==> a == [0, 5] && b == [0, 1] && c == [0, 0, 0, 32]
  {
    var all := a + b + c;
    if all == [0, 5, 0, 1, 0, 0, 0, 32] {
      assert a == all[..2] && b == all[2..4] && c == all[4..];
    }
  }

  lemma BadRequestBytes()
    ensures |BadRequest()| == 268 && BadRequest()[..12] == [0, 255, 0, 1, 0, 0, 1, 4, 0, 0, 0, 1]
    ensures BadRequest()[12..] == Field("invalid transfer request", 256)
  {
    hide BigEndian, Field;
    TwoBytes(MSG_ERROR);
    TwoBytes(PROTOCOL_VERSION);
    FourBytes(ERROR_SIZE);
    FourBytes(ERROR_BAD_REQUEST);
  }

  function BadRequest(): (f: seq<byte>) {
    EncodeError(BigEndian(ERROR_BAD_REQUEST, 4) + Field("invalid transfer request", 256))
  }

  /** handle_transfer_request, for a folder in which a file of the requested hash and size is found or not.  What goes out
      for a valid request is always a transmission of the file's content as it is when sent: whole frames, perhaps part of
      one more, and then, unless the range was sent to its end, the ERROR reply as far as it got. */
  method HandleTransferRequest(sock: Socket, frame: seq<byte>, found: bool, hashed: FileStream, hashCloses: bool,
                               file: FileStream, opens: bool, closes: bool, padding: seq<byte>)
    returns (ok: bool, ghost t: Transmission)
    requires hashed.Valid() && hashed.pos == 0 && file.Valid() && hashed != file && |padding| == 4
    modifies sock`outgoing, sock`schedule, hashed, file
    ensures ParseRequest(frame).None? ==> !ok && old(sock.outgoing) <= sock.outgoing <= old(sock.outgoing) + Frame(BadRequest())
    ensures ParseRequest(frame).Some? && !ParseRequest(frame).value.AsRequest().Valid() ==>
      !ok && old(sock.outgoing) <= sock.outgoing <= old(sock.outgoing) + ErrorFrame()
    ensures ParseRequest(frame).Some? && ParseRequest(frame).value.AsRequest().Valid() ==>
      var r := ParseRequest(frame).value.AsRequest();
      && t.Fits(file.content, r) && sock.outgoing == old(sock.outgoing) + t.Stream(file.content, r)
      && (ok ==> Sum(t.cuts) == r.Length() && t.part == 0 && t.error == 0)
      && (ok ==> found && CanBeSent(r, hashed, hashCloses, file, opens, closes))
      && (NeverFails(old(sock.schedule)) ==> (ok <==> found && CanBeSent(r, hashed, hashCloses, file, opens, closes)))
      && (!found || !Servable(r, hashed.content) ==> t.cuts == [] && t.part == 0)
      && (NeverFails(old(sock.schedule)) ==> t.part == 0 && t.error == if ok then 0 else ERROR_FRAME)
  {
    hide Transmission.Fits, Transmission.Stream, Served, ErrorFrame, Frame, Sum, ParseRequest, EncodeError;
    var request := ParseRequest(frame);
    t := Transmission([], 0, 0, 0, padding);
    if request.None? {
      ok := sock.SendMsg(BadRequest());
      return false, t;
    }
    ghost var r := request.value.AsRequest();
    NothingServed(file.content, r, padding);
    ok := false;
    if found {
      ok, t := TransferSendRange(sock, hashed, hashCloses, file, opens, closes, request.value, padding);
      if !Servable(r, hashed.content) {
        t := Transmission([], 0, 0, 0, padding);
      }
    }
    if !ok {
      t := SendUnavailable(sock, file.content, r, t);
    }
  }

  method SendUnavailable(sock: Socket, ghost content: seq<byte>, ghost r: Request, ghost t: Transmission)
    returns (ghost u: Transmission)
    requires r.Valid() ==> t.Fits(content, r) && t.error == 0
    modifies sock`outgoing, sock`schedule
    ensures old(sock.outgoing) <= sock.outgoing <= old(sock.outgoing) + ErrorFrame()
    ensures u == t.(error := u.error) && u.error <= ERROR_FRAME
    ensures r.Valid() ==> u.Fits(content, r)
    ensures r.Valid() ==> u.Stream(content, r) == t.Stream(content, r) + ErrorFrame()[..u.error]
    ensures sock.outgoing == old(sock.outgoing) + ErrorFrame()[..u.error]
    ensures NeverFails(old(sock.schedule)) ==> u.error == ERROR_FRAME
  {
    hide Transmission.Fits, Transmission.Stream, ErrorFrame, Frame, EncodeError;
    ghost var before := sock.outgoing;
    FrameOfError();
    var _ := sock.SendMsg(Unavailable());
    Between(before, ErrorFrame(), before, sock.outgoing);
    ghost var n := |sock.outgoing| - |before|;
    u := t.(error := n);
    if r.Valid() {
      ErrorAfter(content, r, t, n);
    }
  }

  lemma FrameOfError()
    ensures ErrorFrame() == Frame(Unavailable()) && |Unavailable()| < UINT32_LIMIT && |BadRequest()| < UINT32_LIMIT
  {
  }

  lemma ErrorAfter(content: seq<byte>, r: Request, t: Transmission, error: nat)
    requires r.Valid() && t.Fits(content, r) && t.error == 0 && error <= ERROR_FRAME
    ensures t.(error := error).Fits(content, r)
    ensures t.(error := error).Stream(content, r) == t.Stream(content, r) + ErrorFrame()[..error]
  {
    hide Served, ErrorFrame, DataFrame;
  }
}
