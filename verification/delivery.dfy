/** What a segment receiver makes of a peer's byte stream (transfer/receiver.c): the frames it accepts, and when it
    succeeds. */
module Delivery {
  import opened Bytes
  import opened Wrappers
  import opened Framing
  import opened Chunks

  // The bytes of the segment taken from a stream, and whether the segment was completed.
  datatype Outcome = Outcome(complete: bool, data: seq<byte>)

  /** The receive loop: `received` bytes of the segment have been accepted before the stream s. */
  function Deliver(s: seq<byte>, r: Request, received: nat): (d: Outcome)
    requires r.Valid() && received <= r.Length()
    ensures received + |d.data| <= r.Length()
    ensures d.complete <==> received + |d.data| == r.Length()
    decreases |s|
  {
    if received == r.Length() then Outcome(true, [])
    else match NextMessage(s, FRAME_CAPACITY)
      case Closed => Outcome(false, [])
      case Broken => Outcome(false, [])
      case Message(frame, rest) =>
        match ParseChunk(frame)
        case None => Outcome(false, [])
        case Some(c) =>
          if !Accepts(c, r, received) then Outcome(false, [])
          else
            var later := Deliver(rest, r, received + |c.data|);
            Outcome(later.complete, c.data + later.data)
  }

  ghost function Payload(chunks: seq<Chunk>): seq<byte> {
    if chunks == [] then [] else Payload(chunks[..|chunks| - 1]) + chunks[|chunks| - 1].data
  }

  /** The chunks cover from..r.last with no gap, no overlap and nothing outside, each labelled with r's file. */
  ghost predicate Tile(chunks: seq<Chunk>, r: Request, from: nat) {
    && (forall j :: 0 <= j < |chunks| ==> chunks[j].hash == r.hash && chunks[j].size == r.size)
    && (forall j :: 0 <= j < |chunks| ==> chunks[j].start == from + |Payload(chunks[..j])|)
    && from + |Payload(chunks)| == r.last + 1
  }

  ghost predicate Opens(messages: seq<seq<byte>>, chunks: seq<Chunk>) {
    && |chunks| <= |messages|
    && forall j :: 0 <= j < |chunks| ==> ParseChunk(messages[j]) == Some(chunks[j])
  }

  lemma {:induction false} PayloadCons(c: Chunk, later: seq<Chunk>)
    ensures Payload([c] + later) == c.data + Payload(later)
  {
    var chunks := [c] + later;
    if later == [] {
      assert Payload(chunks) == Payload(chunks[..0]) + c.data;
    } else {
      PayloadCons(c, later[..|later| - 1]);
      assert chunks[..|chunks| - 1] == [c] + later[..|later| - 1];
    }
  }

  lemma EmptyTile(r: Request)
    requires r.Valid()
    ensures Payload([]) == [] && Tile([], r, r.last + 1)
  {
  }

  lemma EmptyTileEnds(r: Request, from: nat)
    requires Tile([], r, from)
    ensures from == r.last + 1 && Payload([]) == []
  {
  }

  lemma PayloadAfter(c: Chunk, later: seq<Chunk>, j: nat)
    requires j <= |later|
    ensures Payload(([c] + later)[..j + 1]) == c.data + Payload(later[..j])
  {
    assert ([c] + later)[..j + 1] == [c] + later[..j];
    PayloadCons(c, later[..j]);
  }

  lemma TileTail(c: Chunk, later: seq<Chunk>, r: Request, from: nat)
    requires Tile([c] + later, r, from)
    ensures c.hash == r.hash && c.size == r.size && c.start == from && Tile(later, r, from + |c.data|)
  {
    hide Payload;
    var chunks := [c] + later;
    EmptyPayload();
    assert chunks[0] == c && chunks[..0] == [];
    PayloadCons(c, later);
    forall j | 0 <= j < |later|
      ensures later[j].hash == r.hash && later[j].size == r.size
      ensures later[j].start == from + |c.data| + |Payload(later[..j])|
    {
      assert later[j] == chunks[j + 1];
      PayloadAfter(c, later, j);
    }
  }

  lemma TileCons(c: Chunk, later: seq<Chunk>, r: Request, from: nat)
    requires c.hash == r.hash && c.size == r.size && c.start == from && Tile(later, r, from + |c.data|)
    ensures Tile([c] + later, r, from)
  {
    hide Payload;
    var chunks := [c] + later;
    EmptyPayload();
    PayloadCons(c, later);
    forall j | 0 <= j < |chunks|
      ensures chunks[j].hash == r.hash && chunks[j].size == r.size
      ensures chunks[j].start == from + |Payload(chunks[..j])|
    {
      if j == 0 {
        assert chunks[..0] == [];
      } else {
        assert chunks[j] == later[j - 1];
        PayloadAfter(c, later, j - 1);
      }
    }
  }

  lemma EmptyPayload()
    ensures Payload([]) == []
  {
  }

  lemma TileAccepts(c: Chunk, later: seq<Chunk>, r: Request, received: nat)
    requires r.Valid() && received <= r.Length() && |c.data| > 0
    requires Tile([c] + later, r, r.first + received)
    ensures Accepts(c, r, received) && Tile(later, r, r.first + received + |c.data|)
  {
    TileTail(c, later, r, r.first + received);
  }

  /** A completed segment comes from frames, the first ones on the connection, that tile it. */
  lemma {:induction false} CompleteMeansTiled(s: seq<byte>, r: Request, received: nat) returns (chunks: seq<Chunk>)
    requires r.Valid() && received <= r.Length() && Deliver(s, r, received).complete
    ensures Opens(Receive(s, FRAME_CAPACITY).messages, chunks)
    ensures Tile(chunks, r, r.first + received) && Deliver(s, r, received).data == Payload(chunks)
    decreases |s|
  {
    hide NextMessage, ParseChunk, Tile, Payload;
    if received == r.Length() {
      chunks := [];
      EmptyTile(r);
    } else {
      var message := NextMessage(s, FRAME_CAPACITY);
      var c := ParseChunk(message.payload).value;
      var later := CompleteMeansTiled(message.rest, r, received + |c.data|);
      chunks := [c] + later;
      TileCons(c, later, r, r.first + received);
      PayloadCons(c, later);
    }
  }

  /** Conversely, when the first frames tile the segment, the receiver completes it with their data. */
  lemma {:induction false} TiledMeansComplete(s: seq<byte>, r: Request, received: nat, chunks: seq<Chunk>)
    requires r.Valid() && received <= r.Length()
    requires Opens(Receive(s, FRAME_CAPACITY).messages, chunks) && Tile(chunks, r, r.first + received)
    ensures Deliver(s, r, received) == Outcome(true, Payload(chunks))
    decreases |s|
  {
    hide NextMessage, ParseChunk, Accepts, Payload, Tile;
    var messages := Receive(s, FRAME_CAPACITY).messages;
    if chunks == [] {
      EmptyTileEnds(r, r.first + received);
    } else {
      var c, later := chunks[0], chunks[1..];
      assert chunks == [c] + later;
      assert ParseChunk(messages[0]) == Some(c);
      TileAccepts(c, later, r, received);
      PayloadCons(c, later);
      var message := NextMessage(s, FRAME_CAPACITY);
      assert message.payload == messages[0] && Receive(message.rest, FRAME_CAPACITY).messages == messages[1..];
      forall j | 0 <= j < |later| ensures ParseChunk(messages[1..][j]) == Some(later[j]) {
        assert chunks[j + 1] == later[j];
      }
      TiledMeansComplete(message.rest, r, received + |c.data|, later);
    }
  }

  /** Whatever the peer sends, the receiver succeeds exactly when the stream opens with frames that tile the
      requested range, and the bytes it takes are then exactly theirs, in order. */
  lemma SegmentCompleteIffTiled(s: seq<byte>, r: Request, data: seq<byte>)
    requires r.Valid()
    ensures Deliver(s, r, 0) == Outcome(true, data)
        <==> exists chunks :: Opens(Receive(s, FRAME_CAPACITY).messages, chunks) && Tile(chunks, r, r.first)
                           && Payload(chunks) == data
  {
    hide Deliver, Receive, Tile, Payload, Opens;
    if Deliver(s, r, 0) == Outcome(true, data) {
      var chunks := CompleteMeansTiled(s, r, 0);
    }
    if chunks :| Opens(Receive(s, FRAME_CAPACITY).messages, chunks) && Tile(chunks, r, r.first) && Payload(chunks) == data
    {
      TiledMeansComplete(s, r, 0, chunks);
    }
  }
}
