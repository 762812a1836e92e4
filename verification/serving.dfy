/** What a peer that holds a content puts on the wire for a request (transfer/sender.c, transfer/listener.c), and what
    the receiver makes of it. */
module Serving {
  import opened Bytes
  import opened Wrappers
  import opened Sequences
  import opened Texts
  import opened Framing
  import opened Chunks
  import opened Delivery

  /** Bytes first..last of a content. */
  function Slice(content: seq<byte>, r: Request): seq<byte>
    requires r.Valid() && |content| == r.size
  {
    content[r.first..r.last + 1]
  }

  ghost function Sum(cuts: seq<nat>): nat {
    if cuts == [] then 0 else cuts[0] + Sum(cuts[1..])
  }

  /** Sizes that successive fread calls may return while `remaining` bytes are still to be sent. */
  ghost predicate Cuts(cuts: seq<nat>, remaining: nat) {
    && (forall i :: 0 <= i < |cuts| ==> 1 <= cuts[i] <= CHUNK_SIZE)
    && Sum(cuts) <= remaining
  }

  lemma CutsTail(cuts: seq<nat>, remaining: nat)
    requires Cuts(cuts, remaining) && cuts != []
    ensures 1 <= cuts[0] <= remaining && cuts[0] <= CHUNK_SIZE && Cuts(cuts[1..], remaining - cuts[0])
  {
  }

  ghost function ChunkAt(content: seq<byte>, r: Request, offset: nat, cut: nat): Chunk
    requires offset + cut <= |content|
  {
    Chunk(r.hash, r.size, offset, content[offset..offset + cut])
  }

  /** The framed message that carries `cut` bytes of the content from `offset` on. */
  ghost function DataFrame(content: seq<byte>, r: Request, offset: nat, cut: nat, padding: seq<byte>): (f: seq<byte>)
    requires offset + cut <= |content| && |padding| == 4
    ensures |f| == FRAME_HEAD + cut
  {
    Frame(EncodeChunk(ChunkAt(content, r, offset, cut), padding))
  }

  const FRAME_HEAD: nat := PREFIX + HEADER_SIZE + DATA_HEADER_SIZE
  const CHECKED_HEAD: nat := FRAME_HEAD - 4   // the padding before the data is not looked at

  /** What a sender puts on the wire for the content from `offset` on, one frame for each fread. */
  ghost function Served(content: seq<byte>, r: Request, offset: nat, cuts: seq<nat>, padding: seq<byte>): seq<byte>
    requires (cuts == [] || offset + Sum(cuts) <= |content|) && |padding| == 4
    decreases |cuts|
  {
    if cuts == [] then []
    else DataFrame(content, r, offset, cuts[0], padding) + Served(content, r, offset + cuts[0], cuts[1..], padding)
  }

  /** A frame the sender emits passes every check of the receiver, which takes its data and goes on. */
  lemma FrameAccepted(content: seq<byte>, r: Request, received: nat, cut: nat, padding: seq<byte>, rest: seq<byte>)
    requires r.Valid() && |content| == r.size && |padding| == 4
    requires 1 <= cut <= CHUNK_SIZE && received + cut <= r.Length()
    ensures var offset := r.first + received;
            var later := Deliver(rest, r, received + cut);
            var input := DataFrame(content, r, offset, cut, padding) + rest;
            Deliver(input, r, received) == Outcome(later.complete, content[offset..offset + cut] + later.data)
  {
    hide NextMessage, ParseChunk, EncodeChunk, Frame;
    var c := ChunkAt(content, r, r.first + received, cut);
    NextOfFrame(EncodeChunk(c, padding), rest, FRAME_CAPACITY);
    ChunkRoundTrip(c, padding);
  }

  /** The frames that arrive whole deliver their part of the content, and the receiver goes on with what follows. */
  lemma {:induction false} ServedThen(content: seq<byte>, r: Request, received: nat, cuts: seq<nat>, padding: seq<byte>,
                                      tail: seq<byte>)
    requires r.Valid() && |content| == r.size && received <= r.Length()
    requires |padding| == 4 && Cuts(cuts, r.Length() - received)
    ensures var offset := r.first + received;
            var later := Deliver(tail, r, received + Sum(cuts));
            Deliver(Served(content, r, offset, cuts, padding) + tail, r, received)
            == Outcome(later.complete, content[offset..offset + Sum(cuts)] + later.data)
    decreases |cuts|
  {
    hide Deliver, DataFrame;
    var offset := r.first + received;
    if cuts == [] {
      assert [] + tail == tail && content[offset..offset] + Deliver(tail, r, received).data == Deliver(tail, r, received).data;
    } else {
      CutsTail(cuts, r.Length() - received);
      assert Sum(cuts) == cuts[0] + Sum(cuts[1..]);
      var frame := DataFrame(content, r, offset, cuts[0], padding);
      var later := Served(content, r, offset + cuts[0], cuts[1..], padding);
      assert Served(content, r, offset, cuts, padding) == frame + later;
      hide Served, Sum, Cuts;
      assert frame + later + tail == frame + (later + tail);
      var next := received + cuts[0];
      assert r.first + next == offset + cuts[0];
      FrameAccepted(content, r, received, cuts[0], padding, later + tail);
      ServedThen(content, r, next, cuts[1..], padding, tail);
      SliceJoin(content, offset, offset + cuts[0], offset + Sum(cuts), Deliver(tail, r, received + Sum(cuts)).data);
    }
  }

  lemma SliceJoin(content: seq<byte>, a: nat, b: nat, c: nat, tail: seq<byte>)
    requires a <= b <= c <= |content|
    ensures content[a..b] + (content[b..c] + tail) == content[a..c] + tail
  {
  }

  // --- The ERROR reply ---

  /** The reply of the listener when a range could not be served to its end. */
  function Unavailable(): seq<byte> {
    EncodeError(BigEndian(ERROR_INTERNAL, 4) + Field(REASON, 256))
  }

  function ErrorFrame(): (f: seq<byte>)
    ensures |f| == ERROR_FRAME
  {
    Frame(Unavailable())
  }

  const ERROR_FRAME: nat := PREFIX + HEADER_SIZE + ERROR_SIZE

  const REASON: string := "requested range is unavailable"

  lemma ReasonBytes()
    ensures forall i :: 0 <= i < 30 ==> Field(REASON, 256)[i] >= 32
    ensures forall i :: 30 <= i < 256 ==> Field(REASON, 256)[i] == 0
  {
    assert |REASON| == 30;
    assert forall i :: 0 <= i < |REASON| ==> 32 <= REASON[i] as int < 256;
  }

  lemma ErrorHead()
    ensures ErrorFrame()[..16] == [0, 0, 1, 12, 0, 255, 0, 1, 0, 0, 1, 4, 0, 0, 0, 5]
    ensures ErrorFrame()[16..] == Field("requested range is unavailable", 256)
  {
    hide BigEndian, Field;
    FourBytes(HEADER_SIZE + ERROR_SIZE);
    TwoBytes(MSG_ERROR);
    TwoBytes(PROTOCOL_VERSION);
    FourBytes(ERROR_SIZE);
    FourBytes(ERROR_INTERNAL);
  }

  /** The bytes of the ERROR frame: its length, its header, its code, a text and zeros. */
  lemma ErrorFrameBytes()
    ensures ErrorFrame()[..16] == [0, 0, 1, 12, 0, 255, 0, 1, 0, 0, 1, 4, 0, 0, 0, 5]
    ensures forall j :: 16 <= j < 46 ==> ErrorFrame()[j] >= 32
    ensures forall j :: 46 <= j < ERROR_FRAME ==> ErrorFrame()[j] == 0
  {
    hide Field, ErrorFrame;
    ErrorHead();
    ReasonBytes();
    assert forall j :: 16 <= j < ERROR_FRAME ==> ErrorFrame()[j] == ErrorFrame()[16..][j - 16];
  }

  /** A stream holds no chunk next: no message at all, or one that is none. */
  ghost predicate NoChunkNext(s: seq<byte>) {
    match NextMessage(s, FRAME_CAPACITY)
    case Message(frame, _) => ParseChunk(frame) == None
    case _ => true
  }

  lemma NoChunkNoData(s: seq<byte>, r: Request, received: nat)
    requires r.Valid() && received <= r.Length() && NoChunkNext(s)
    ensures Deliver(s, r, received).data == []
  {
  }

  lemma TooShort(s: seq<byte>)
    requires |s| >= PREFIX ==> FromBigEndian(s[..PREFIX]) < HEADER_SIZE + DATA_HEADER_SIZE
    ensures NoChunkNext(s)
  {
    hide FromBigEndian;
  }

  lemma TooLong(s: seq<byte>)
    requires |s| >= PREFIX ==> FromBigEndian(s[..PREFIX]) > FRAME_CAPACITY || FromBigEndian(s[..PREFIX]) + PREFIX > |s|
    ensures NoChunkNext(s)
  {
    hide FromBigEndian;
  }

  lemma WrongHeader(s: seq<byte>)
    requires |s| >= PREFIX + 4 ==> s[PREFIX + 2..PREFIX + 4] == [0, 5] || s[PREFIX..PREFIX + 2] == [0, 1]
    ensures NoChunkNext(s)
  {
    assert FromBigEndian([0, 5]) == 5 && FromBigEndian([0, 1]) == 1 by {
      assert [0, 5][..1] == [0] && [0, 1][..1] == [0] && [0][..0] == [];
      assert FromBigEndian([0]) == FromBigEndian([]) * 256 + 0;
      assert FromBigEndian([0, 5]) == FromBigEndian([0]) * 256 + 5;
      assert FromBigEndian([0, 1]) == FromBigEndian([0]) * 256 + 1;
    }
    hide FromBigEndian;
    match NextMessage(s, FRAME_CAPACITY)
    case Message(frame, _) =>
      if |frame| >= HEADER_SIZE + DATA_HEADER_SIZE {
        assert frame == s[PREFIX..PREFIX + |frame|];
        SliceOfSlice(s, PREFIX, PREFIX + |frame|, 0, 2);
        SliceOfSlice(s, PREFIX, PREFIX + |frame|, 2, 4);
      }
    case _ =>
  }

  /** However the ERROR frame is cut at both ends, once its first byte is gone it holds no chunk. */
  lemma ErrorRemainder(from: nat, to: nat)
    requires 1 <= from <= to <= ERROR_FRAME
    ensures NoChunkNext(ErrorFrame()[from..to])
  {
    hide NextMessage, ParseChunk, ErrorFrame;
    ErrorFrameBytes();
    var s := ErrorFrame()[from..to];
    if |s| >= PREFIX {
      assert forall j :: 0 <= j < |s| ==> s[j] == ErrorFrame()[from + j];
      assert forall j :: 0 <= j < 16 ==> ErrorFrame()[j] == ErrorFrame()[..16][j];
      LengthOf(s[..PREFIX]);
    }
    if from == 8 {
      assert |s| >= PREFIX + 4 ==> s[PREFIX + 2..PREFIX + 4] == [0, 5];
      WrongHeader(s);
    } else if from == 12 || from >= 46 {
      TooShort(s);
    } else {
      TooLong(s);
    }
  }

  // --- A frame that a failed send left cut, and the ERROR reply after it ---

  // What went out for a request: whole frames, `part` bytes of one more frame of `next` data bytes, and `error` bytes of
  // the ERROR reply.  A lost connection may end any of these early.
  datatype Transmission = Transmission(cuts: seq<nat>, next: nat, part: nat, error: nat, padding: seq<byte>) {
    ghost predicate Fits(content: seq<byte>, r: Request)
      requires r.Valid()
    {
      && Cuts(cuts, r.Length()) && |padding| == 4 && error <= ERROR_FRAME
      && (cuts != [] ==> r.first + Sum(cuts) <= |content|)
      && (part > 0 ==>
            && 1 <= next <= CHUNK_SIZE && part < FRAME_HEAD + next
            && Sum(cuts) + next <= r.Length() && r.first + Sum(cuts) + next <= |content|)
    }

    // Where in the content the cut frame starts.
    ghost function Offset(r: Request): nat {
      r.first + Sum(cuts)
    }

    // How many bytes the cut frame lacks, and how many of them are data.
    ghost function Missing(): int {
      FRAME_HEAD + next - part
    }

    ghost function MissingData(): int {
      if part < FRAME_HEAD then next else Missing()
    }

    /** The ERROR reply makes up for the missing bytes, and the fields of the frame's head that it makes up are right. */
    ghost predicate Fills(content: seq<byte>, r: Request)
      requires r.Valid() && Fits(content, r)
    {
      && PREFIX <= part && Missing() <= error
      && forall i :: 0 <= i < CHECKED_HEAD - part ==> ErrorFrame()[i] == DataFrame(content, r, Offset(r), next, padding)[part + i]
    }

    /** It makes up for data bytes as well, and gets them wrong. */
    ghost predicate Corrupts(content: seq<byte>, r: Request)
      requires r.Valid() && Fits(content, r)
    {
      && Fills(content, r)
      && content[Offset(r) + next - MissingData()..Offset(r) + next] != ErrorFrame()[Missing() - MissingData()..Missing()]
    }

    /** The data the receiver takes. */
    ghost function Taken(content: seq<byte>, r: Request): seq<byte>
      requires r.Valid() && |content| == r.size && Fits(content, r)
    {
      content[r.first..Offset(r)]
      + (if Fills(content, r)
         then content[Offset(r)..Offset(r) + next - MissingData()] + ErrorFrame()[Missing() - MissingData()..Missing()]
         else [])
    }

    /** The bytes on the wire. */
    ghost function Stream(content: seq<byte>, r: Request): seq<byte>
      requires r.Valid() && Fits(content, r)
    {
      Served(content, r, r.first, cuts, padding) + Rest(content, r)
    }

    ghost function Rest(content: seq<byte>, r: Request): seq<byte>
      requires r.Valid() && Fits(content, r)
    {
      (if part > 0 then DataFrame(content, r, Offset(r), next, padding)[..part] else []) + ErrorFrame()[..error]
    }
  }

  /** Cut inside its length, a frame and the ERROR reply after it hold no chunk. */
  lemma CutInLength(length: nat, part: nat, error: nat)
    requires 0 < part < PREFIX && error <= ERROR_FRAME && length < UINT16_LIMIT
    ensures NoChunkNext(BigEndian(length, PREFIX)[..part] + ErrorFrame()[..error])
  {
    hide NextMessage, ParseChunk, ErrorFrame, BigEndian;
    var s := BigEndian(length, PREFIX)[..part] + ErrorFrame()[..error];
    CutBytes(length, part, error);
    if part == 3 {
      WrongHeader(s);
    } else {
      if |s| >= PREFIX {
        LengthOf(s[..PREFIX]);
      }
      TooShort(s);
    }
  }

  /** The first bytes of such a stream. */
  lemma CutBytes(length: nat, part: nat, error: nat)
    requires 0 < part < PREFIX && error <= ERROR_FRAME && length < UINT16_LIMIT
    ensures var s := BigEndian(length, PREFIX)[..part] + ErrorFrame()[..error];
      && (part == 1 && |s| >= PREFIX ==> s[0] == 0 && s[1] == 0 && s[2] == 0 && s[3] == 1)
      && (part == 2 && |s| >= PREFIX ==> s[0] == 0 && s[1] == 0 && s[2] == 0 && s[3] == 0)
      && (part == 3 && |s| >= PREFIX + 4 ==> s[PREFIX..PREFIX + 2] == [0, 1])
  {
    hide ErrorFrame, BigEndian;
    SmallFourBytes(length);
    ErrorStarts();
    var head, tail := BigEndian(length, PREFIX), ErrorFrame()[..error];
    assert head[0] == head[..2][0] && head[1] == head[..2][1];
    assert forall j :: 0 <= j < 3 && j < error ==> tail[j] == ErrorFrame()[j];
    hide *;
    if part == 1 {
      assert head[..1] == [head[0]];
    } else if part == 2 {
      assert head[..2] == [head[0], head[1]];
    } else {
      SecondAndThird(head[..3], tail);
    }
  }

  lemma ErrorStarts()
    ensures ErrorFrame()[0] == 0 && ErrorFrame()[1] == 0 && ErrorFrame()[2] == 1
  {
    hide ErrorFrame;
    ErrorFrameBytes();
    assert forall j :: 0 <= j < 16 ==> ErrorFrame()[j] == ErrorFrame()[..16][j];
  }

  lemma SecondAndThird(head: seq<byte>, tail: seq<byte>)
    requires |head| == 3 && (|tail| >= 3 ==> tail[1] == 0 && tail[2] == 1)
    ensures |tail| >= 5 ==> (head + tail)[4..6] == [0, 1]
  {
  }

  lemma FromBigEndianSeparates(a: seq<byte>, b: seq<byte>)
    requires |a| == |b|
    ensures FromBigEndian(a) == FromBigEndian(b) <==> a == b
  {
    if a != [] && FromBigEndian(a) == FromBigEndian(b) {
      FromBigEndianSeparates(a[..|a| - 1], b[..|b| - 1]);
      assert a == a[..|a| - 1] + [a[|a| - 1]] && b == b[..|b| - 1] + [b[|b| - 1]];
    }
  }

  lemma SameHead(f: seq<byte>, g: seq<byte>)
    requires |f| >= 36 && |g| >= 36 && f[..36] == g[..36]
    ensures f[0..2] == g[0..2] && f[2..4] == g[2..4] && f[4..8] == g[4..8] && f[8..16] == g[8..16]
    ensures f[16..24] == g[16..24] && f[24..32] == g[24..32] && f[32..36] == g[32..36]
  {
    forall a, b | 0 <= a <= b <= 36
      ensures f[a..b] == g[a..b]
    {
      SliceOfSlice(f, 0, 36, a, b);
      SliceOfSlice(g, 0, 36, a, b);
    }
  }

  /** A frame that is accepted where another one would be has the same head, and its own data. */
  lemma AcceptedInstead(f: seq<byte>, g: seq<byte>, r: Request, received: nat)
    requires |f| == |g| && ParseChunk(f).Some? && Accepts(ParseChunk(f).value, r, received)
    ensures f[..36] == g[..36] ==> ParseChunk(g) == Some(ParseChunk(f).value.(data := g[40..]))
    ensures f[..36] != g[..36] ==> ParseChunk(g) == None || !Accepts(ParseChunk(g).value, r, received)
  {
    var c := ParseChunk(f).value;
    if f[..36] == g[..36] {
      hide FromBigEndian, Accepts;
      SameHead(f, g);
      assert g[40..40 + |c.data|] == g[40..];
    } else if ParseChunk(g).Some? && Accepts(ParseChunk(g).value, r, received) {
      hide ParseChunk, Accepts;
      BothAccepted(f, g, r, received);
    }
  }

  lemma BothAccepted(f: seq<byte>, g: seq<byte>, r: Request, received: nat)
    requires |f| == |g| && ParseChunk(f).Some? && Accepts(ParseChunk(f).value, r, received)
    requires ParseChunk(g).Some? && Accepts(ParseChunk(g).value, r, received)
    ensures f[..36] == g[..36]
  {
    hide FromBigEndian;
    FromBigEndianSeparates(f[0..2], g[0..2]);
    FromBigEndianSeparates(f[2..4], g[2..4]);
    FromBigEndianSeparates(f[4..8], g[4..8]);
    FromBigEndianSeparates(f[8..16], g[8..16]);
    FromBigEndianSeparates(f[16..24], g[16..24]);
    FromBigEndianSeparates(f[24..32], g[24..32]);
    FromBigEndianSeparates(f[32..36], g[32..36]);
    HeadOfFields(f);
    HeadOfFields(g);
  }

  lemma HeadOfFields(f: seq<byte>)
    requires |f| >= 36
    ensures f[..36] == f[0..2] + f[2..4] + f[4..8] + f[8..16] + f[16..24] + f[24..32] + f[32..36]
  {
  }

  /** What follows part of a frame and makes up its length, read as one message. */
  lemma MessageOf(frame: seq<byte>, part: nat, tail: seq<byte>)
    requires |frame| < UINT16_LIMIT && |frame| <= FRAME_CAPACITY && PREFIX <= part <= PREFIX + |frame|
    ensures var missing := PREFIX + |frame| - part;
            NextMessage(Frame(frame)[..part] + tail, FRAME_CAPACITY)
            == if |tail| < missing then Broken else Message(frame[..part - PREFIX] + tail[..missing], tail[missing..])
  {
    PowersOf256();
    var missing := PREFIX + |frame| - part;
    var s := Frame(frame)[..part] + tail;
    assert s[..PREFIX] == BigEndian(|frame|, PREFIX);
    BigEndianRoundTrip(|frame|, PREFIX);
    if |tail| >= missing {
      assert Frame(frame)[..part] == BigEndian(|frame|, PREFIX) + frame[..part - PREFIX];
      assert s == BigEndian(|frame|, PREFIX) + (frame[..part - PREFIX] + tail[..missing]) + tail[missing..];
      assert s[PREFIX + |frame|..] == tail[missing..];
    }
  }

  lemma FrameStart(frame: seq<byte>, part: nat)
    requires part <= PREFIX
    ensures Frame(frame)[..part] == BigEndian(|frame|, PREFIX)[..part]
  {
  }

  /** A frame whose last bytes are replaced: when its checked head is still right, and what its data is then. */
  lemma Replaced(frame: seq<byte>, part: nat, tail: seq<byte>)
    requires |frame| > HEADER_SIZE + DATA_HEADER_SIZE && PREFIX <= part < PREFIX + |frame| && |tail| == PREFIX + |frame| - part
    ensures var g := frame[..part - PREFIX] + tail;
      && (frame[..36] == g[..36] <==> forall i :: 0 <= i < CHECKED_HEAD - part ==> tail[i] == Frame(frame)[part + i])
      && g[40..] == (if part < FRAME_HEAD then [] else frame[40..part - PREFIX]) + tail[if part < FRAME_HEAD then FRAME_HEAD - part else 0..]
  {
    hide BigEndian;
    var g := frame[..part - PREFIX] + tail;
    assert forall j :: PREFIX <= j < PREFIX + |frame| ==> Frame(frame)[j] == frame[j - PREFIX];
    assert forall i :: 0 <= i < part - PREFIX ==> g[i] == frame[i];
    assert forall i :: part - PREFIX <= i < |frame| ==> g[i] == tail[i + PREFIX - part];
    if forall i :: 0 <= i < CHECKED_HEAD - part ==> tail[i] == Frame(frame)[part + i] {
      forall k | 0 <= k < 36
        ensures frame[k] == g[k]
      {
        if k + PREFIX >= part {
          assert tail[k + PREFIX - part] == Frame(frame)[k + PREFIX];
        }
      }
    }
    if frame[..36] == g[..36] {
      forall i | 0 <= i < CHECKED_HEAD - part
        ensures tail[i] == Frame(frame)[part + i]
      {
        assert frame[..36][part + i - PREFIX] == g[..36][part + i - PREFIX];
      }
    }
  }

  /** What the receiver takes from a cut frame and the ERROR reply after it: nothing, or the chunk they make together. */
  lemma CutThenError(content: seq<byte>, r: Request, t: Transmission)
    requires r.Valid() && |content| == r.size && t.Fits(content, r) && t.part > 0
    ensures Deliver(t.Rest(content, r), r, Sum(t.cuts)).data
         == if t.Fills(content, r)
            then content[t.Offset(r)..t.Offset(r) + t.next - t.MissingData()] + ErrorFrame()[t.Missing() - t.MissingData()..t.Missing()]
            else []
  {
    hide Deliver, ParseChunk, EncodeChunk, NextMessage, ErrorFrame, Frame;
    var c := ChunkAt(content, r, t.Offset(r), t.next);
    var frame := EncodeChunk(c, t.padding);
    ChunkRoundTrip(c, t.padding);
    if t.part < PREFIX {
      CutInLength(|frame|, t.part, t.error);
      FrameStart(frame, t.part);
      NoChunkNoData(t.Rest(content, r), r, Sum(t.cuts));
    } else {
      MessageOf(frame, t.part, ErrorFrame()[..t.error]);
      if t.error < t.Missing() {
        NoChunkNoData(t.Rest(content, r), r, Sum(t.cuts));
      } else {
        FusedFrame(content, r, t);
      }
    }
  }

  // The frame the receiver reads when the ERROR reply makes up for the missing bytes of a cut one.
  ghost function Fused(content: seq<byte>, r: Request, t: Transmission): seq<byte>
    requires r.Valid() && t.Fits(content, r) && t.part >= PREFIX && t.error >= t.Missing()
  {
    EncodeChunk(ChunkAt(content, r, t.Offset(r), t.next), t.padding)[..t.part - PREFIX] + ErrorFrame()[..t.Missing()]
  }

  lemma FusedMessage(content: seq<byte>, r: Request, t: Transmission)
    requires r.Valid() && t.Fits(content, r) && t.part >= PREFIX && t.error >= t.Missing()
    ensures NextMessage(t.Rest(content, r), FRAME_CAPACITY)
         == Message(Fused(content, r, t), ErrorFrame()[t.Missing()..t.error])
  {
    hide EncodeChunk, NextMessage, ErrorFrame, Frame;
    var frame := EncodeChunk(ChunkAt(content, r, t.Offset(r), t.next), t.padding);
    MessageOf(frame, t.part, ErrorFrame()[..t.error]);
    SliceOfSlice(ErrorFrame(), 0, t.error, 0, t.Missing());
    SliceOfSlice(ErrorFrame(), 0, t.error, t.Missing(), t.error);
  }

  /** The fused frame passes the checks exactly when the ERROR reply fills the cut one. */
  lemma FusedChunk(content: seq<byte>, r: Request, t: Transmission)
    requires r.Valid() && |content| == r.size && t.Fits(content, r) && t.part >= PREFIX && t.error >= t.Missing()
    ensures var c := ParseChunk(Fused(content, r, t));
            if t.Fills(content, r) then c == Some(ChunkAt(content, r, t.Offset(r), t.next).(data := Fused(content, r, t)[40..]))
            else c.None? || !Accepts(c.value, r, Sum(t.cuts))
    ensures |Fused(content, r, t)[40..]| == t.next
  {
    hide ParseChunk, EncodeChunk, ErrorFrame, Frame;
    var c := ChunkAt(content, r, t.Offset(r), t.next);
    var frame := EncodeChunk(c, t.padding);
    ChunkRoundTrip(c, t.padding);
    Replaced(frame, t.part, ErrorFrame()[..t.Missing()]);
    AcceptedInstead(frame, Fused(content, r, t), r, Sum(t.cuts));
  }

  lemma FusedFrame(content: seq<byte>, r: Request, t: Transmission)
    requires r.Valid() && |content| == r.size && t.Fits(content, r) && t.part >= PREFIX && t.error >= t.Missing()
    ensures Deliver(t.Rest(content, r), r, Sum(t.cuts)).data
         == if t.Fills(content, r)
            then content[t.Offset(r)..t.Offset(r) + t.next - t.MissingData()] + ErrorFrame()[t.Missing() - t.MissingData()..t.Missing()]
            else []
  {
    hide ParseChunk, NextMessage, ErrorFrame, Frame, NoChunkNext, Fused, Transmission.Fills, Transmission.Rest;
    FusedMessage(content, r, t);
    FusedChunk(content, r, t);
    ErrorRemainder(t.Missing(), t.error);
    NoChunkNoData(ErrorFrame()[t.Missing()..t.error], r, Sum(t.cuts) + t.next);
    FusedData(content, r, t);
  }

  lemma FusedData(content: seq<byte>, r: Request, t: Transmission)
    requires r.Valid() && |content| == r.size && t.Fits(content, r) && t.part >= PREFIX && t.error >= t.Missing()
    ensures Fused(content, r, t)[40..]
         == content[t.Offset(r)..t.Offset(r) + t.next - t.MissingData()] + ErrorFrame()[t.Missing() - t.MissingData()..t.Missing()]
  {
    hide EncodeChunk, ErrorFrame, Frame;
    var frame := EncodeChunk(ChunkAt(content, r, t.Offset(r), t.next), t.padding);
    Replaced(frame, t.part, ErrorFrame()[..t.Missing()]);
    DataOfFused(content, r, t);
  }

  lemma DataOfFused(content: seq<byte>, r: Request, t: Transmission)
    requires r.Valid() && |content| == r.size && t.Fits(content, r) && t.part >= PREFIX && t.error >= t.Missing()
    ensures var frame := EncodeChunk(ChunkAt(content, r, t.Offset(r), t.next), t.padding);
            var tail := ErrorFrame()[..t.Missing()];
            (if t.part < FRAME_HEAD then [] else frame[40..t.part - PREFIX])
            + tail[if t.part < FRAME_HEAD then FRAME_HEAD - t.part else 0..]
            == content[t.Offset(r)..t.Offset(r) + t.next - t.MissingData()]
               + ErrorFrame()[t.Missing() - t.MissingData()..t.Missing()]
  {
    hide ErrorFrame, Chunks.EncodeHeader, BigEndian;
    var c := ChunkAt(content, r, t.Offset(r), t.next);
    var frame := EncodeChunk(c, t.padding);
    assert frame[40..] == c.data;
    if t.part >= FRAME_HEAD {
      assert frame[40..t.part - PREFIX] == c.data[..t.part - FRAME_HEAD];
    }
  }

  /** What a receiver takes from a peer that holds the content, however its sends failed. */
  lemma StreamDelivers(content: seq<byte>, r: Request, t: Transmission)
    requires r.Valid() && |content| == r.size && t.Fits(content, r)
    ensures Deliver(t.Stream(content, r), r, 0).data == t.Taken(content, r)
  {
    hide Deliver, Served, ErrorFrame, DataFrame, Transmission.Rest, Transmission.Fills, Transmission.Missing,
         Transmission.MissingData, Cuts, Sum;
    ServedThen(content, r, 0, t.cuts, t.padding, t.Rest(content, r));
    TailDelivers(content, r, t);
  }

  /** What the receiver makes of what follows the whole frames. */
  lemma TailDelivers(content: seq<byte>, r: Request, t: Transmission)
    requires r.Valid() && |content| == r.size && t.Fits(content, r)
    ensures Deliver(t.Rest(content, r), r, Sum(t.cuts)).data
         == if t.Fills(content, r)
            then content[t.Offset(r)..t.Offset(r) + t.next - t.MissingData()] + ErrorFrame()[t.Missing() - t.MissingData()..t.Missing()]
            else []
  {
    if t.part > 0 {
      CutThenError(content, r, t);
    } else {
      NothingAfter(content, r, t);
    }
  }

  lemma NothingAfter(content: seq<byte>, r: Request, t: Transmission)
    requires r.Valid() && |content| == r.size && t.Fits(content, r) && t.part == 0
    ensures Deliver(t.Rest(content, r), r, Sum(t.cuts)).data == [] && !t.Fills(content, r)
  {
    hide Deliver, ErrorFrame, NoChunkNext;
    assert [] + ErrorFrame()[..t.error] == ErrorFrame()[..t.error];
    ErrorPrefix(t.error);
    NoChunkNoData(ErrorFrame()[..t.error], r, Sum(t.cuts));
  }

  lemma ErrorPrefix(error: nat)
    requires error <= ERROR_FRAME
    ensures NoChunkNext(ErrorFrame()[..error])
  {
    hide ParseChunk;
    PowersOf256();
    if error == ERROR_FRAME {
      NextOfFrame(Unavailable(), [], FRAME_CAPACITY);
      assert ErrorFrame()[..error] == Frame(Unavailable()) + [];
      ErrorIsNotChunk(BigEndian(ERROR_INTERNAL, 4) + Field(REASON, 256));
    } else {
      NextOfCutFrame(Unavailable(), error, FRAME_CAPACITY);
    }
  }

  /** From a peer that holds the content the receiver takes a part of the requested slice, from its start, if and only if
      no frame was cut so that the ERROR reply made up for the rest of it with other bytes than the content's. */
  lemma SliceUnlessCorrupted(content: seq<byte>, r: Request, t: Transmission)
    requires r.Valid() && |content| == r.size && t.Fits(content, r)
    ensures var d := Deliver(t.Stream(content, r), r, 0);
      && (d.data <= Slice(content, r) <==> !t.Corrupts(content, r))
      && (d.complete ==> (d.data == Slice(content, r) <==> !t.Corrupts(content, r)))
      && (d.complete <==> Sum(t.cuts) + (if t.Fills(content, r) then t.next else 0) == r.Length())
  {
    hide Deliver, Slice, Transmission.Corrupts, Transmission.Taken, Transmission.Stream, Transmission.Fills;
    StreamDelivers(content, r, t);
    TakenOfSlice(content, r, t);
    assert |Slice(content, r)| == r.Length() by {
      assert |content[r.first..r.last + 1]| == r.Length();
    }
  }

  lemma TakenOfSlice(content: seq<byte>, r: Request, t: Transmission)
    requires r.Valid() && |content| == r.size && t.Fits(content, r)
    ensures |Slice(content, r)| == r.Length()
    ensures |t.Taken(content, r)| == Sum(t.cuts) + (if t.Fills(content, r) then t.next else 0)
    ensures t.Taken(content, r) <= Slice(content, r) <==> !t.Corrupts(content, r)
  {
    hide ErrorFrame, DataFrame, Sum;
    var a, b, d := r.first, t.Offset(r), r.last + 1;
    if t.Fills(content, r) {
      var made := ErrorFrame()[t.Missing() - t.MissingData()..t.Missing()];
      var c := b + t.next - t.MissingData();
      Pieces(content, a, b, c, b + t.next, d);
      assert t.Taken(content, r) == content[a..b] + content[b..c] + made;
      PrefixParts(content[a..d], content[a..b] + content[b..c], content[c..b + t.next], made);
    } else {
      Pieces(content, a, b, b, b, d);
      assert content[a..b] + [] == content[a..b];
    }
  }

  lemma Pieces(s: seq<byte>, a: nat, b: nat, c: nat, d: nat, e: nat)
    requires a <= b <= c <= d <= e <= |s|
    ensures s[a..b] + s[b..c] + s[c..d] <= s[a..e]
    ensures s[a..b] <= s[a..e]
  {
    assert s[a..e] == s[a..b] + s[b..c] + s[c..d] + s[d..e];
  }

  lemma PrefixParts(s: seq<byte>, start: seq<byte>, bad: seq<byte>, made: seq<byte>)
    requires |bad| == |made| && start + bad <= s
    ensures start + made <= s <==> made == bad
  {
    if start + made <= s {
      assert made == s[|start|..|start| + |made|] == bad;
    }
  }

  /** No harm comes of a cut between frames, of a cut with no ERROR reply, or of one that lacks more bytes than the ERROR
      reply has. */
  lemma SafeCuts(content: seq<byte>, r: Request, t: Transmission)
    requires r.Valid() && t.Fits(content, r)
    ensures t.part == 0 || t.error == 0 || t.Missing() > t.error ==> !t.Corrupts(content, r)
  {
    hide ErrorFrame, DataFrame, Sum, Cuts;
  }

  /** A frame of which all but the last `missing` data bytes went out is completed wrongly exactly when the content does not
      end, there, in the first bytes of the ERROR frame. */
  lemma CutInData(content: seq<byte>, r: Request, t: Transmission)
    requires r.Valid() && |content| == r.size && t.Fits(content, r) && t.part >= FRAME_HEAD
    ensures t.Corrupts(content, r) <==>
      && t.Missing() <= t.error
      && content[t.Offset(r) + t.next - t.Missing()..t.Offset(r) + t.next] != ErrorFrame()[..t.Missing()]
  {
    hide ErrorFrame, DataFrame, Sum, Cuts, Transmission.Fills;
    if t.Missing() <= t.error {
      CompletelyHeaded(content, r, t);
      assert ErrorFrame()[0..t.Missing()] == ErrorFrame()[..t.Missing()];
    } else {
      NotFilled(content, r, t);
    }
  }

  lemma NotFilled(content: seq<byte>, r: Request, t: Transmission)
    requires r.Valid() && t.Fits(content, r) && t.Missing() > t.error
    ensures !t.Fills(content, r)
  {
  }

  /** A whole connection's bytes cut short are again such a transmission. */
  lemma StreamPrefix(content: seq<byte>, r: Request, t: Transmission, n: nat) returns (u: Transmission)
    requires r.Valid() && t.Fits(content, r) && n <= |t.Stream(content, r)|
    ensures u.Fits(content, r) && u.Stream(content, r) == t.Stream(content, r)[..n]
  {
    hide Served, ErrorFrame, DataFrame;
    var served := Served(content, r, r.first, t.cuts, t.padding);
    if n <= |served| {
      u := ServedPrefix(content, r, t.cuts, t.padding, n);
      assert t.Stream(content, r)[..n] == served[..n];
    } else if n - |served| <= t.part {
      u := t.(part := n - |served|, error := 0);
      assert u.Stream(content, r) == t.Stream(content, r)[..n];
    } else {
      u := t.(error := n - |served| - t.part);
      assert u.Stream(content, r) == t.Stream(content, r)[..n];
    }
  }

  lemma {:induction false} ServedPrefix(content: seq<byte>, r: Request, cuts: seq<nat>, padding: seq<byte>, n: nat)
    returns (u: Transmission)
    requires r.Valid() && Cuts(cuts, r.Length()) && |padding| == 4 && (cuts != [] ==> r.first + Sum(cuts) <= |content|)
    requires n <= |Served(content, r, r.first, cuts, padding)|
    ensures u.Fits(content, r) && u.error == 0
    ensures u.Stream(content, r) == Served(content, r, r.first, cuts, padding)[..n]
    decreases |cuts|
  {
    hide ErrorFrame, DataFrame;
    if cuts == [] {
      u := Transmission([], 0, 0, 0, padding);
    } else {
      var init, last := cuts[..|cuts| - 1], cuts[|cuts| - 1];
      assert cuts == init + [last];
      CutsInit(init, last, r.Length());
      ServedSnoc(content, r, r.first, init, last, padding);
      var served := Served(content, r, r.first, init, padding);
      var frame := DataFrame(content, r, r.first + Sum(init), last, padding);
      hide Served, Sum, Cuts;
      if n <= |served| {
        u := ServedPrefix(content, r, init, padding, n);
        assert (served + frame)[..n] == served[..n];
      } else if n == |served + frame| {
        u := Transmission(cuts, 0, 0, 0, padding);
        assert (served + frame)[..n] == served + frame;
      } else {
        u := Transmission(init, last, n - |served|, 0, padding);
        assert (served + frame)[..n] == served + frame[..n - |served|];
      }
    }
  }

  lemma CutsInit(init: seq<nat>, last: nat, remaining: nat)
    requires Cuts(init + [last], remaining)
    ensures Cuts(init, remaining) && Sum(init) + last == Sum(init + [last]) && 1 <= last <= CHUNK_SIZE
  {
    SumSnoc(init, last);
    var all := init + [last];
    assert all[|init|] == last && forall i :: 0 <= i < |init| ==> all[i] == init[i];
  }

  lemma {:induction false} SumSnoc(cuts: seq<nat>, cut: nat)
    ensures Sum(cuts + [cut]) == Sum(cuts) + cut
  {
    if cuts == [] {
      assert [] + [cut] == [cut];
    } else {
      assert (cuts + [cut])[1..] == cuts[1..] + [cut];
      SumSnoc(cuts[1..], cut);
    }
  }

  lemma {:induction false} ServedSnoc(content: seq<byte>, r: Request, offset: nat, cuts: seq<nat>, cut: nat, padding: seq<byte>)
    requires offset + Sum(cuts) + cut <= |content| && |padding| == 4
    ensures Sum(cuts + [cut]) == Sum(cuts) + cut
    ensures Served(content, r, offset, cuts + [cut], padding)
         == Served(content, r, offset, cuts, padding) + DataFrame(content, r, offset + Sum(cuts), cut, padding)
    decreases |cuts|
  {
    hide DataFrame;
    SumSnoc(cuts, cut);
    var all := cuts + [cut];
    if cuts == [] {
      assert all[1..] == [];
    } else {
      assert all[1..] == cuts[1..] + [cut];
      ServedSnoc(content, r, offset + cuts[0], cuts[1..], cut, padding);
    }
  }

  /** The failing input: a content of one byte other than zero, of whose frame all but that byte was sent; the first byte
      of the ERROR reply is taken for it. */
  lemma ErrorTakenForData(content: seq<byte>, r: Request, padding: seq<byte>)
    requires |content| == r.size == 1 && r.Valid() && content[0] != 0 && |padding| == 4
    ensures var t := Transmission([], 1, FRAME_HEAD, ERROR_FRAME, padding);
      && t.Fits(content, r) && t.Corrupts(content, r)
      && Deliver(t.Stream(content, r), r, 0) == Outcome(true, [0])
  {
    hide Deliver, Transmission.Stream, ErrorFrame;
    var t := Transmission([], 1, FRAME_HEAD, ERROR_FRAME, padding);
    OneByteShort(content, r, t);
    hide Transmission.Fits, Transmission.Corrupts, Transmission.Taken;
    StreamDelivers(content, r, t);
  }

  lemma OneByteShort(content: seq<byte>, r: Request, t: Transmission)
    requires |content| == r.size == 1 && r.Valid() && content[0] != 0 && |t.padding| == 4
    requires t.cuts == [] && t.next == 1 && t.part == FRAME_HEAD && t.error == ERROR_FRAME
    ensures t.Fits(content, r) && t.Corrupts(content, r) && t.Taken(content, r) == [0]
  {
    hide ErrorFrame, DataFrame;
    OneByteFits(content, r, t);
    hide Sum, Cuts, Transmission.Fits, Transmission.Fills;
    FirstByteOfError();
    assert content[0..1] == [content[0]] && content[0..0] == [];
  }

  lemma OneByteFits(content: seq<byte>, r: Request, t: Transmission)
    requires |content| == r.size == 1 && r.Valid() && |t.padding| == 4
    requires t.cuts == [] && t.next == 1 && t.part == FRAME_HEAD && t.error == ERROR_FRAME
    ensures t.Fits(content, r) && t.Fills(content, r)
    ensures t.Offset(r) == 0 && t.Missing() == 1 && t.MissingData() == 1
  {
    hide ErrorFrame, DataFrame;
  }

  lemma FirstByteOfError()
    ensures ErrorFrame()[0..1] == [0]
  {
    hide ErrorFrame;
    ErrorFrameBytes();
    assert ErrorFrame()[0] == ErrorFrame()[..16][0] == 0;
  }

  lemma CompletelyHeaded(content: seq<byte>, r: Request, t: Transmission)
    requires r.Valid() && t.Fits(content, r) && t.part >= CHECKED_HEAD && t.Missing() <= t.error
    ensures t.Fills(content, r)
  {
  }
}
