/** Serving a byte range of a file (transfer/sender.c). */
module Sender {
  import opened Bytes
  import opened Files
  import opened Framing
  import opened Sockets
  import opened Chunks
  import opened Delivery
  import opened Serving
  import opened Receiver
  import Fnv

  /** A request is served only for a range inside a file of exactly the identity asked for. */
  predicate Servable(r: Request, content: seq<byte>) {
    r.Valid() && r.hash == Fnv.Hash(content) && r.size == |content|
  }

  /** Nothing but the connection can stop the range from being sent: the file was hashed whole and matched, opens again,
      reaches the end of the range without a failure, and closes. */
  predicate CanBeSent(r: Request, hashed: FileStream, hashCloses: bool, file: FileStream, opens: bool, closes: bool) {
    && Servable(r, hashed.content) && hashed.failsAt.None? && hashCloses && opens && closes
    && r.first <= 0x7fff_ffff_ffff_ffff && r.last < file.Limit()
  }

  /** validate_request_for_file: accepts exactly the servable requests, when hashing the file does not fail. */
  method ValidateRequestForFile(file: FileStream, closes: bool, request: Segment) returns (ok: bool)
    requires file.Valid() && file.pos == 0
    modifies file
    ensures ok <==> Servable(request.AsRequest(), file.content) && file.failsAt.None? && closes
  {
    if request.byteStart > request.byteEnd {
      return false;
    }
    var hashed, hash, size := Fnv.HashFileWithSize(file, closes);
    if !hashed {
      return false;
    }
    if hash != request.hash as nat || size != request.size {
      return false;
    }
    ok := request.size != 0 && request.byteStart < request.size && request.byteEnd < request.size;
  }

  /** Sends the range in frames of at most 16384 bytes, whatever the sizes fread returns.  The file is opened a second time
      after it was validated, and may hold another content by then; `padding` is what the frame buffer holds between its
      fields. */
  method TransferSendRange(sock: Socket, hashed: FileStream, hashCloses: bool, file: FileStream, opens: bool, closes: bool,
                           request: Segment, padding: seq<byte>)
    returns (ok: bool, ghost t: Transmission)
    requires hashed.Valid() && hashed.pos == 0 && file.Valid() && hashed != file && |padding| == 4
    modifies sock`outgoing, sock`schedule, hashed, file
    ensures NeverFails(old(sock.schedule)) ==> NeverFails(sock.schedule)
    ensures !Servable(request.AsRequest(), hashed.content) ==> !ok && sock.outgoing == old(sock.outgoing)
    ensures Servable(request.AsRequest(), hashed.content) ==>
      var r := request.AsRequest();
      && t.Fits(file.content, r) && t.error == 0
      && sock.outgoing == old(sock.outgoing) + t.Stream(file.content, r)
      && (ok ==> Sum(t.cuts) == r.Length() && t.part == 0)
      && (NeverFails(old(sock.schedule)) ==> t.part == 0)
      && (ok ==> CanBeSent(r, hashed, hashCloses, file, opens, closes))
      && (NeverFails(old(sock.schedule)) ==> (ok <==> CanBeSent(r, hashed, hashCloses, file, opens, closes)))
  {
    hide DataFrame, Frame, EncodeChunk, Served, Cuts, Sum, Transmission.Fits, Transmission.Stream;
    ghost var r := request.AsRequest();
    ghost var cuts: seq<nat> := [];
    t := Transmission([], 0, 0, 0, padding);
    NothingServed(file.content, r, padding);
    var valid := ValidateRequestForFile(hashed, hashCloses, request);
    if !valid || !opens || request.byteStart as nat > OFF_MAX {
      return false, t;
    }
    file.Seek(request.byteStart as nat);
    var buffer := new byte[CHUNK_SIZE];
    var offset := request.byteStart;
    var remaining := request.byteEnd - request.byteStart + 1;
    while remaining > 0
      invariant file.Valid() && fresh(buffer) && buffer.Length == CHUNK_SIZE
      invariant Cuts(cuts, r.Length()) && Sum(cuts) + remaining as nat == r.Length()
      invariant file.pos == offset as nat == r.first + Sum(cuts) && (cuts != [] ==> file.pos <= file.Limit())
      invariant sock.outgoing == old(sock.outgoing) + Served(file.content, r, r.first, cuts, padding)
      invariant NeverFails(old(sock.schedule)) ==> NeverFails(sock.schedule)
    {
      var want := if remaining as nat > CHUNK_SIZE then CHUNK_SIZE else remaining as nat;
      var nread := file.ReadSome(buffer, want);
      if nread == 0 {
        t := Transmission(cuts, 0, 0, 0, padding);
        WholeFrames(file.content, r, cuts, padding);
        return false, t;
      }
      var c := Chunk(request.hash as nat, request.size as nat, offset as nat, buffer[..nread]);
      ghost var before := sock.outgoing;
      var sent := sock.SendMsg(EncodeChunk(c, padding));
      ServedSnoc(file.content, r, r.first, cuts, nread, padding);
      DataFrameOfChunk(file.content, r, offset as nat, nread, padding);
      CutsSnoc(cuts, nread, r.Length());
      cuts := cuts + [nread];
      if !sent {
        t := FailedSend(file.content, r, cuts, padding, old(sock.outgoing), before, sock.outgoing);
        return false, t;
      }
      offset := offset + nread as uint64;
      remaining := remaining - nread as uint64;
    }
    t := Transmission(cuts, 0, 0, 0, padding);
    WholeFrames(file.content, r, cuts, padding);
    ok := closes;
  }

  /** What went out when the last of some frames was not sent whole. */
  lemma FailedSend(content: seq<byte>, r: Request, cuts: seq<nat>, padding: seq<byte>, start: seq<byte>, before: seq<byte>, after: seq<byte>)
    returns (t: Transmission)
    requires r.Valid() && Cuts(cuts, r.Length()) && (cuts != [] ==> r.first + Sum(cuts) <= |content|) && |padding| == 4
    requires start <= before <= after <= start + Served(content, r, r.first, cuts, padding)
    ensures t.Fits(content, r) && t.error == 0 && after == start + t.Stream(content, r)
  {
    hide Served, Transmission.Fits, Transmission.Stream;
    Between(start, Served(content, r, r.first, cuts, padding), before, after);
    t := ServedPrefix(content, r, cuts, padding, |after| - |start|);
  }

  lemma NothingServed(content: seq<byte>, r: Request, padding: seq<byte>)
    requires |padding| == 4
    ensures Sum([]) == 0 && Served(content, r, r.first, [], padding) == []
    ensures r.Valid() ==> Cuts([], r.Length())
    ensures r.Valid() ==>
      Transmission([], 0, 0, 0, padding).Fits(content, r) && Transmission([], 0, 0, 0, padding).Stream(content, r) == []
  {
  }

  lemma WholeFrames(content: seq<byte>, r: Request, cuts: seq<nat>, padding: seq<byte>)
    requires r.Valid() && Cuts(cuts, r.Length()) && (cuts != [] ==> r.first + Sum(cuts) <= |content|) && |padding| == 4
    ensures var t := Transmission(cuts, 0, 0, 0, padding);
      t.Fits(content, r) && t.Stream(content, r) == Served(content, r, r.first, cuts, padding)
  {
    hide Served;
  }

  lemma Between(start: seq<byte>, stream: seq<byte>, before: seq<byte>, after: seq<byte>)
    requires start <= before <= after <= start + stream
    ensures |after| - |start| <= |stream| && after == start + stream[..|after| - |start|]
  {
    assert after == (start + stream)[..|after|];
  }

  lemma DataFrameOfChunk(content: seq<byte>, r: Request, offset: nat, cut: nat, padding: seq<byte>)
    requires offset + cut <= |content| && |padding| == 4
    ensures DataFrame(content, r, offset, cut, padding)
         == Frame(EncodeChunk(Chunk(r.hash, r.size, offset, content[offset..offset + cut]), padding))
  {
  }

  lemma CutsSnoc(cuts: seq<nat>, cut: nat, total: nat)
    requires Cuts(cuts, total) && 1 <= cut <= CHUNK_SIZE && Sum(cuts) + cut <= total
    ensures Cuts(cuts + [cut], total) && Sum(cuts + [cut]) == Sum(cuts) + cut
  {
    SumSnoc(cuts, cut);
  }

  /** However the reads split the range, the frames of a finished sender complete the receiver, with the range. */
  lemma SenderReceiverAgree(content: seq<byte>, r: Request, cuts: seq<nat>, padding: seq<byte>)
    requires r.Valid() && |content| == r.size && |padding| == 4
    requires Cuts(cuts, r.Length())
    ensures Deliver(Served(content, r, r.first, cuts, padding), r, 0).data == content[r.first..r.first + Sum(cuts)]
    ensures Deliver(Served(content, r, r.first, cuts, padding), r, 0).complete <==> Sum(cuts) == r.Length()
  {
    hide Deliver, Served, Sum;
    FramesDeliver(content, r, cuts, padding);
    assert |content[r.first..r.first + Sum(cuts)]| == Sum(cuts);
  }

  lemma FramesDeliver(content: seq<byte>, r: Request, cuts: seq<nat>, padding: seq<byte>)
    requires r.Valid() && |content| == r.size && |padding| == 4 && Cuts(cuts, r.Length())
    ensures Deliver(Served(content, r, r.first, cuts, padding), r, 0).data == content[r.first..r.first + Sum(cuts)]
  {
    hide Deliver, Served, Sum, Transmission.Stream, Transmission.Taken;
    var t := Transmission(cuts, 0, 0, 0, padding);
    WholeFrames(content, r, cuts, padding);
    StreamDelivers(content, r, t);
    TakenOfWhole(content, r, t);
  }

  lemma TakenOfWhole(content: seq<byte>, r: Request, t: Transmission)
    requires r.Valid() && |content| == r.size && t.Fits(content, r) && t.part == 0
    ensures t.Taken(content, r) == content[r.first..r.first + Sum(t.cuts)]
  {
    hide Sum, ErrorFrame, DataFrame;
    NothingJoined(content[r.first..r.first + Sum(t.cuts)]);
  }

  lemma NothingJoined(s: seq<byte>)
    ensures s + [] == s
  {
  }
}
