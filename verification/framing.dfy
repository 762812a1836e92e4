/** The length-prefixed message format of net_send_msg and net_recv_msg (common/net.c),
    as functions on byte streams. */
module Framing {
  import opened Bytes
  import opened Sequences

  const PREFIX: nat := 4

  /** The bytes net_send_msg puts on the wire for one message. */
  function Frame(payload: seq<byte>): seq<byte> {
    BigEndian(|payload|, PREFIX) + payload
  }

  // What one net_recv_msg call makes of the bytes still to come on a connection:
  // closed between messages, unusable, or a message and what follows it.
  datatype Received = Closed | Broken | Message(payload: seq<byte>, rest: seq<byte>)

  function NextMessage(s: seq<byte>, capacity: nat): (r: Received)
    ensures r.Message? ==> |r.payload| <= capacity && |r.rest| + PREFIX + |r.payload| == |s|
  {
    if s == [] then Closed
    else if |s| < PREFIX then Broken
    else
      var length := FromBigEndian(s[..PREFIX]);
      if length > capacity || |s| - PREFIX < length then Broken
      else Message(s[PREFIX..PREFIX + length], s[PREFIX + length..])
  }

  ghost predicate Sendable(messages: seq<seq<byte>>, capacity: nat) {
    forall i :: 0 <= i < |messages| ==> |messages[i]| <= capacity && |messages[i]| < UINT32_LIMIT
  }

  /** The wire bytes of a sequence of messages. */
  ghost function Stream(messages: seq<seq<byte>>): seq<byte> {
    if messages == [] then [] else Frame(messages[0]) + Stream(messages[1..])
  }

  // The results of successive net_recv_msg calls: the messages returned with 1,
  // and whether the call after them returns 0 (clean) or -1.
  datatype Conversation = Conversation(messages: seq<seq<byte>>, clean: bool)

  ghost function Receive(s: seq<byte>, capacity: nat): Conversation
    decreases |s|
  {
    match NextMessage(s, capacity)
    case Closed => Conversation([], true)
    case Broken => Conversation([], false)
    case Message(payload, rest) =>
      var later := Receive(rest, capacity);
      Conversation([payload] + later.messages, later.clean)
  }

  lemma NextOfFrame(payload: seq<byte>, rest: seq<byte>, capacity: nat)
    requires |payload| < UINT32_LIMIT
    ensures NextMessage(Frame(payload) + rest, capacity)
         == if |payload| <= capacity then Message(payload, rest) else Broken
    ensures Frame(payload) == BigEndian(|payload|, 4) + payload
  {
    hide BigEndian, FromBigEndian;
    PowersOf256();
    var s := Frame(payload) + rest;
    assert s[..PREFIX] == BigEndian(|payload|, PREFIX);
    BigEndianRoundTrip(|payload|, PREFIX);
    assert s[PREFIX..PREFIX + |payload|] == payload;
    assert s[PREFIX + |payload|..] == rest;
  }

  /** A stream cut inside its first frame never yields a message, and reads as closed only if empty. */
  lemma NextOfCutFrame(payload: seq<byte>, cut: nat, capacity: nat)
    requires |payload| < UINT32_LIMIT && cut < |Frame(payload)|
    ensures NextMessage(Frame(payload)[..cut], capacity) == if cut == 0 then Closed else Broken
  {
    PowersOf256();
    var s := Frame(payload)[..cut];
    if cut >= PREFIX {
      assert s[..PREFIX] == BigEndian(|payload|, PREFIX);
      BigEndianRoundTrip(|payload|, PREFIX);
    }
  }

  /** Any messages sent one after the other, empty ones included, are received one by one, unchanged and
      in order, and the end of the connection after the last is reported as a clean close. */
  lemma {:induction false} FramingRoundTrip(messages: seq<seq<byte>>, capacity: nat)
    requires Sendable(messages, capacity)
    ensures Receive(Stream(messages), capacity) == Conversation(messages, true)
  {
    if messages != [] {
      NextOfFrame(messages[0], Stream(messages[1..]), capacity);
      FramingRoundTrip(messages[1..], capacity);
    }
  }

  lemma StreamCons(first: seq<byte>, later: seq<seq<byte>>)
    ensures Stream([first] + later) == Frame(first) + Stream(later)
  {
    assert ([first] + later)[1..] == later;
  }

  lemma ReceiveAfterFrame(payload: seq<byte>, rest: seq<byte>, capacity: nat)
    requires |payload| < UINT32_LIMIT && |payload| <= capacity
    ensures Receive(Frame(payload) + rest, capacity)
         == Conversation([payload] + Receive(rest, capacity).messages, Receive(rest, capacity).clean)
  {
    NextOfFrame(payload, rest, capacity);
  }

  lemma ReceiveCutFrame(payload: seq<byte>, cut: nat, capacity: nat)
    requires |payload| < UINT32_LIMIT && cut < |Frame(payload)|
    ensures Receive(Frame(payload)[..cut], capacity) == Conversation([], cut == 0)
  {
    NextOfCutFrame(payload, cut, capacity);
  }

  /** The first `whole` messages are the ones sent in full before the cut; they are what is received, and the
      close reads as clean exactly when the cut falls on the boundary after them. */
  ghost predicate ReceivedUpTo(messages: seq<seq<byte>>, cut: nat, whole: nat, capacity: nat) {
    && cut <= |Stream(messages)| && whole <= |messages|
    && |Stream(messages[..whole])| <= cut
    && (whole < |messages| ==> cut < |Stream(messages[..whole + 1])|)
    && Receive(Stream(messages)[..cut], capacity) == Conversation(messages[..whole], cut == |Stream(messages[..whole])|)
  }

  lemma ReceivedUpToCons(first: seq<byte>, later: seq<seq<byte>>, cut: nat, whole: nat, capacity: nat)
    requires |first| <= capacity && |first| < UINT32_LIMIT && ReceivedUpTo(later, cut, whole, capacity)
    ensures ReceivedUpTo([first] + later, |Frame(first)| + cut, whole + 1, capacity)
  {
    hide Receive, Frame;
    var messages := [first] + later;
    StreamCons(first, later);
    TakeOfAppend(Frame(first), Stream(later), cut);
    ReceiveAfterFrame(first, Stream(later)[..cut], capacity);
    assert messages[..whole + 1] == [first] + later[..whole];
    StreamCons(first, later[..whole]);
    if whole < |later| {
      assert messages[..whole + 2] == [first] + later[..whole + 1];
      StreamCons(first, later[..whole + 1]);
    }
  }

  lemma ReceivedNothing(messages: seq<seq<byte>>, cut: nat, capacity: nat)
    requires messages != [] && |messages[0]| < UINT32_LIMIT && cut < |Frame(messages[0])|
    ensures ReceivedUpTo(messages, cut, 0, capacity)
  {
    hide Receive, Frame;
    TakeCons(messages, 0);
    StreamCons(messages[0], []);
    assert Stream(messages)[..cut] == Frame(messages[0])[..cut];
    ReceiveCutFrame(messages[0], cut, capacity);
  }

  /** A connection lost after any number of bytes delivers exactly the messages sent in full before; the close is
      clean exactly on a message boundary, and an error inside a message. */
  lemma {:induction false} TruncatedStream(messages: seq<seq<byte>>, cut: nat, capacity: nat) returns (whole: nat)
    requires Sendable(messages, capacity) && cut <= |Stream(messages)|
    ensures ReceivedUpTo(messages, cut, whole, capacity)
  {
    whole := 0;
    if messages != [] {
      hide ReceivedUpTo, Frame;
      if cut < |Frame(messages[0])| {
        ReceivedNothing(messages, cut, capacity);
      } else {
        assert messages == [messages[0]] + messages[1..];
        var n := TruncatedStream(messages[1..], cut - |Frame(messages[0])|, capacity);
        ReceivedUpToCons(messages[0], messages[1..], cut - |Frame(messages[0])|, n, capacity);
        whole := n + 1;
      }
    }
  }
}
