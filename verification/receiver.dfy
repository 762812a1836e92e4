/** Receiving one segment into the shared partial file (transfer/receiver.c). */
module Receiver {
  import opened Bytes
  import opened Wrappers
  import opened Framing
  import opened Sockets
  import opened Chunks
  import opened Delivery

  const OFF_MAX: nat := 0x7fff_ffff_ffff_ffff   // the largest off_t

  /** The content of a file after `data` is written at `offset`; a gap before the data reads as zeros. */
  function Patch(content: seq<byte>, offset: nat, data: seq<byte>): (p: seq<byte>)
    ensures data == [] || offset + |data| <= |content| ==> |p| == |content|
  {
    if data == [] then content
    else Resized(content, offset) + data
         + (if offset + |data| < |content| then content[offset + |data|..] else [])
  }

  /** A content cut or zero-filled to the given length, as ftruncate leaves it. */
  function Resized(content: seq<byte>, length: nat): (r: seq<byte>)
    ensures |r| == length
  {
    if length <= |content| then content[..length] else content + Zeros(length - |content|)
  }

  lemma UnwrittenPatch(content: seq<byte>, offset: nat)
    ensures Patch(content, offset, []) == content
  {
  }

  /** Writing two pieces one after the other is writing them joined. */
  lemma PatchAppend(content: seq<byte>, offset: nat, first: seq<byte>, second: seq<byte>)
    ensures Patch(Patch(content, offset, first), offset + |first|, second) == Patch(content, offset, first + second)
  {
    if first == [] {
      assert first + second == second;
    } else if second == [] {
      assert first + second == first;
    } else {
      var once := Patch(content, offset, first);
      assert Resized(once, offset + |first|) == Resized(content, offset) + first;
      if offset + |first| + |second| < |content| {
        assert once[offset + |first| + |second|..] == content[offset + |first| + |second|..];
      }
    }
  }

  class PartialFile {
    var content: seq<byte>
    var schedule: seq<Sockets.Outcome>

    constructor (content: seq<byte>, schedule: seq<Sockets.Outcome>)
      ensures this.content == content && this.schedule == schedule
    {
      this.content := content;
      this.schedule := schedule;
    }

    /** pwrite: may be interrupted, fail, or write any part of the data; an offset beyond off_t is refused. */
    method Pwrite(data: seq<byte>, offset: uint64) returns (outcome: Sockets.Outcome)
      requires data != []
      modifies this
      ensures outcome.Moves? ==> outcome.count <= |data|
      ensures outcome.Moves? ==> content == Patch(old(content), offset as nat, data[..outcome.count])
      ensures !outcome.Moves? || outcome.count == 0 ==> content == old(content)
      ensures |schedule| <= |old(schedule)| && (outcome.Interrupted? ==> |schedule| < |old(schedule)|)
      ensures NeverFails(old(schedule)) ==> NeverFails(schedule)
      ensures NeverFails(old(schedule)) && offset as nat <= OFF_MAX && !outcome.Interrupted? ==> outcome.Moves? && outcome.count > 0
    {
      if offset as nat > OFF_MAX {
        return Sockets.Failed;
      }
      if schedule == [] {
        outcome := Sockets.Moves(|data|);
      } else {
        outcome := schedule[0];
        schedule := schedule[1..];
      }
      if outcome.Moves? {
        var n := if outcome.count < |data| then outcome.count else |data|;
        content := Patch(content, offset as nat, data[..n]);
        outcome := Sockets.Moves(n);
      }
    }

    /** Writes all the data at the offset, or some first part of it when a write fails. */
    method WriteAllAt(data: seq<byte>, offset: uint64) returns (ok: bool, ghost written: nat)
      requires offset as nat + |data| < UINT64_LIMIT
      modifies this
      ensures written <= |data| && (ok <==> written == |data|)
      ensures content == Patch(old(content), offset as nat, data[..written])
      ensures NeverFails(old(schedule)) ==> NeverFails(schedule)
      ensures NeverFails(old(schedule)) && offset as nat + |data| <= OFF_MAX ==> ok
    {
      hide Patch;
      var total: nat := 0;
      UnwrittenPatch(content, offset as nat);
      while total < |data|
        invariant total <= |data|
        invariant content == Patch(old(content), offset as nat, data[..total])
        invariant NeverFails(old(schedule)) ==> NeverFails(schedule)
        decreases |data| - total, |schedule|
      {
        var outcome := Pwrite(data[total..], offset + total as uint64);
        if outcome.Interrupted? {
          continue;
        }
        if outcome.Failed? || outcome.count == 0 {
          return false, total;
        }
        PatchAppend(old(content), offset as nat, data[..total], data[total..][..outcome.count]);
        assert data[..total] + data[total..][..outcome.count] == data[..total + outcome.count];
        total := total + outcome.count;
      }
      assert data[..total] == data;
      ok, written := true, total;
    }
  }

  // segment_request_t, without the peer's address.
  datatype Segment = Segment(hash: uint64, size: uint64, byteStart: uint64, byteEnd: uint64) {
    function AsRequest(): Request {
      Request(hash as nat, size as nat, byteStart as nat, byteEnd as nat)
    }
  }

  /** One pass of the receive loop up to the write: the next frame if it passes every check, else nothing.  None of
      the 64-bit sums and differences wraps. */
  method ReceiveFrame(sock: Socket, segment: Segment, receivedTotal: uint64) returns (accepted: Option<Chunk>)
    requires segment.AsRequest().Valid() && (receivedTotal as nat) < segment.AsRequest().Length()
    modifies sock`incoming, sock`schedule
    ensures accepted.Some? ==> accepted.value.Encodable() && Accepts(accepted.value, segment.AsRequest(), receivedTotal as nat)
    ensures accepted.Some? ==>
      var later := Deliver(sock.incoming, segment.AsRequest(), receivedTotal as nat + |accepted.value.data|);
      Deliver(old(sock.incoming), segment.AsRequest(), receivedTotal as nat)
        == Delivery.Outcome(later.complete, accepted.value.data + later.data)
    ensures accepted.Some? ==> |sock.incoming| < |old(sock.incoming)|
    ensures accepted.None? && NeverFails(old(sock.schedule))
        ==> Deliver(old(sock.incoming), segment.AsRequest(), receivedTotal as nat) == Delivery.Outcome(false, [])
    ensures NeverFails(old(sock.schedule)) ==> NeverFails(sock.schedule)
  {
    hide NextMessage, ParseChunk;
    var buffer := new byte[FRAME_CAPACITY];
    var rc, length := sock.RecvMsg(buffer);
    if rc <= 0 {
      return None;
    }
    var parsed := ParseChunk(buffer[..length]);
    if parsed.None? {
      return None;
    }
    var c := parsed.value;
    var frameStart := c.start as uint64;
    var dataLength := |c.data| as uint64;
    if c.hash as uint64 != segment.hash || c.size as uint64 != segment.size
       || frameStart < segment.byteStart || frameStart > segment.byteEnd
       || frameStart != segment.byteStart + receivedTotal
       || dataLength > segment.byteEnd - frameStart + 1 {
      return None;
    }
    accepted := Some(c);
  }

  /** Accepts frames until the segment is full.  On every path what has been written is a first part of what the
      stream delivers, at its place, and success means all of it. */
  method ReceiveSegmentFrames(sock: Socket, file: PartialFile, segment: Segment) returns (ok: bool, ghost taken: seq<byte>)
    requires segment.AsRequest().Valid()
    modifies sock`incoming, sock`schedule, file
    ensures file.content == Patch(old(file.content), segment.byteStart as nat, taken)
    ensures taken <= Deliver(old(sock.incoming), segment.AsRequest(), 0).data
    ensures ok ==> Deliver(old(sock.incoming), segment.AsRequest(), 0) == Delivery.Outcome(true, taken)
    ensures NeverFails(old(sock.schedule)) && NeverFails(old(file.schedule)) && segment.size as nat <= OFF_MAX
        ==> Deliver(old(sock.incoming), segment.AsRequest(), 0) == Delivery.Outcome(ok, taken)
  {
    hide Deliver, Patch;
    var expectedLength: uint64 := segment.byteEnd - segment.byteStart + 1;
    var receivedTotal: uint64 := 0;
    ghost var r := segment.AsRequest();
    ghost var whole := Deliver(sock.incoming, r, 0);
    taken := [];
    UnwrittenPatch(file.content, segment.byteStart as nat);
    while receivedTotal < expectedLength
      invariant receivedTotal <= expectedLength && |taken| == receivedTotal as nat
      invariant file.content == Patch(old(file.content), segment.byteStart as nat, taken)
      invariant var later := Deliver(sock.incoming, r, |taken|);
                whole == Delivery.Outcome(later.complete, taken + later.data)
      invariant NeverFails(old(sock.schedule)) ==> NeverFails(sock.schedule)
      invariant NeverFails(old(file.schedule)) ==> NeverFails(file.schedule)
      decreases |sock.incoming|
    {
      var accepted := ReceiveFrame(sock, segment, receivedTotal);
      if accepted.None? {
        return false, taken;
      }
      var data := accepted.value.data;
      var stored;
      ghost var written;
      stored, written := file.WriteAllAt(data, accepted.value.start as uint64);
      PatchAppend(old(file.content), segment.byteStart as nat, taken, data[..written]);
      if !stored {
        taken := taken + data[..written];
        return false, taken;
      }
      assert data[..written] == data;
      taken := taken + data;
      receivedTotal := receivedTotal + |data| as uint64;
    }
    ok := true;
  }
}
