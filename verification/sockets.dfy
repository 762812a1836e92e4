/** The exact-length and framed socket calls of common/net.c, over a connection whose every system call may
    be interrupted, fail, or move fewer bytes than asked. */
module Sockets {
  import opened Bytes
  import opened Framing

  // The outcome of one send or recv system call; once a schedule is used up, calls move all they can.
  datatype Outcome = Interrupted | Failed | Moves(count: nat)

  ghost predicate NeverFails(schedule: seq<Outcome>) {
    forall i :: 0 <= i < |schedule| ==> schedule[i].Interrupted? || (schedule[i].Moves? && schedule[i].count > 0)
  }

  class Socket {
    var incoming: seq<byte>   // sent by the peer, not yet received; the connection closes after them
    var outgoing: seq<byte>   // accepted by the network for the peer
    var schedule: seq<Outcome>

    constructor (incoming: seq<byte>, schedule: seq<Outcome>)
      ensures this.incoming == incoming && this.outgoing == [] && this.schedule == schedule
    {
      this.incoming := incoming;
      this.outgoing := [];
      this.schedule := schedule;
    }

    method NextOutcome(want: nat) returns (outcome: Outcome)
      modifies this`schedule
      ensures outcome.Moves? ==> outcome.count <= want
      ensures if old(schedule) == [] then schedule == [] && outcome == Moves(want)
              else schedule == old(schedule)[1..]
      ensures NeverFails(old(schedule)) ==> NeverFails(schedule) && !outcome.Failed?
      ensures NeverFails(old(schedule)) && outcome.Moves? && want > 0 ==> outcome.count > 0
    {
      if schedule == [] {
        return Moves(want);
      }
      outcome := schedule[0];
      schedule := schedule[1..];
      if outcome.Moves? && outcome.count > want {
        outcome := Moves(want);
      }
    }

    /** recv: waits for data, so it moves at least one byte unless the peer has closed. */
    method Recv(buf: array<byte>, at: nat, want: nat) returns (outcome: Outcome)
      requires 0 < want && at + want <= buf.Length
      modifies this`incoming, this`schedule, buf
      ensures outcome.Moves? ==> outcome.count <= want && outcome.count <= |old(incoming)|
      ensures outcome.Moves? ==> (outcome.count == 0 <==> old(incoming) == [])
      ensures incoming == old(incoming)[(if outcome.Moves? then outcome.count else 0)..]
      ensures outcome.Moves? ==> buf[..at + outcome.count] == old(buf[..at]) + old(incoming)[..outcome.count]
      ensures !outcome.Moves? ==> buf[..] == old(buf[..])
      ensures old(schedule) == [] ==> outcome.Moves?
      ensures |schedule| <= |old(schedule)| && (outcome.Interrupted? ==> |schedule| < |old(schedule)|)
      ensures NeverFails(old(schedule)) ==> NeverFails(schedule) && !outcome.Failed?
    {
      outcome := NextOutcome(want);
      if outcome.Moves? {
        var n := if outcome.count == 0 then 1 else outcome.count;
        n := if n < |incoming| then n else |incoming|;
        forall k | 0 <= k < n {
          buf[at + k] := incoming[k];
        }
        assert buf[..at] == old(buf[..at]) && buf[at..at + n] == incoming[..n];
        incoming := incoming[n..];
        outcome := Moves(n);
      }
    }

    /** send: may accept any part of the data, or none. */
    method Send(data: seq<byte>) returns (outcome: Outcome)
      requires data != []
      modifies this`outgoing, this`schedule
      ensures outcome.Moves? ==> outcome.count <= |data|
      ensures outgoing == old(outgoing) + data[..(if outcome.Moves? then outcome.count else 0)]
      ensures |schedule| <= |old(schedule)| && (outcome.Interrupted? ==> |schedule| < |old(schedule)|)
      ensures NeverFails(old(schedule)) ==> NeverFails(schedule) && !outcome.Failed?
      ensures NeverFails(old(schedule)) && outcome.Moves? ==> outcome.count > 0
    {
      outcome := NextOutcome(|data|);
      if outcome.Moves? {
        outgoing := outgoing + data[..outcome.count];
      }
    }

    /** Fills the buffer from as many recv calls as it takes; stops early only when the peer has closed. */
    method RecvAll(buf: array<byte>, len: nat) returns (received: int)
      requires len <= buf.Length
      modifies this`incoming, this`schedule, buf
      ensures -1 <= received <= len && received <= |old(incoming)|
      ensures received >= 0 ==> received == if len < |old(incoming)| then len else |old(incoming)|
      ensures received >= 0 ==> buf[..received] == old(incoming)[..received] && incoming == old(incoming)[received..]
      ensures NeverFails(old(schedule)) ==> NeverFails(schedule) && received >= 0
    {
      var total := 0;
      ghost var start := incoming;
      while total < len
        invariant 0 <= total <= len && total <= |start|
        invariant buf[..total] == start[..total] && incoming == start[total..]
        invariant NeverFails(old(schedule)) ==> NeverFails(schedule)
        decreases len - total, |schedule|
      {
        var outcome := Recv(buf, total, len - total);
        if outcome.Interrupted? {
          continue;
        }
        if outcome.Failed? {
          return -1;
        }
        if outcome.count == 0 {
          break;
        }
        assert start[..total] + start[total..][..outcome.count] == start[..total + outcome.count];
        total := total + outcome.count;
      }
      received := total;
    }

    method SendAll(data: seq<byte>) returns (sent: int)
      modifies this`outgoing, this`schedule
      ensures sent == -1 || sent == |data|
      ensures sent == |data| ==> outgoing == old(outgoing) + data
      ensures old(outgoing) <= outgoing <= old(outgoing) + data
      ensures NeverFails(old(schedule)) ==> NeverFails(schedule) && sent == |data|
    {
      var total := 0;
      while total < |data|
        invariant 0 <= total <= |data|
        invariant outgoing == old(outgoing) + data[..total]
        invariant NeverFails(old(schedule)) ==> NeverFails(schedule)
        decreases |data| - total, |schedule|
      {
        var outcome := Send(data[total..]);
        if outcome.Interrupted? {
          continue;
        }
        if outcome.Failed? {
          return -1;
        }
        if outcome.count == 0 {
          return -1;
        }
        assert data[..total] + data[total..][..outcome.count] == data[..total + outcome.count];
        total := total + outcome.count;
      }
      sent := total;
    }

    /** Puts exactly one frame on the wire, or reports failure having sent some part of it. */
    method SendMsg(payload: seq<byte>) returns (ok: bool)
      requires |payload| < UINT32_LIMIT
      modifies this`outgoing, this`schedule
      ensures ok ==> outgoing == old(outgoing) + Frame(payload)
      ensures old(outgoing) <= outgoing <= old(outgoing) + Frame(payload)
      ensures NeverFails(old(schedule)) ==> NeverFails(schedule) && ok
    {
      var prefix := BigEndian(|payload|, PREFIX);
      assert old(outgoing) + Frame(payload) == old(outgoing) + prefix + payload;
      var sent := SendAll(prefix);
      if sent != PREFIX {
        return false;
      }
      if |payload| == 0 {
        return true;
      }
      sent := SendAll(payload);
      ok := sent == |payload|;
    }

    /** Receives one message: 1 with its bytes, 0 when the peer closed between messages, -1 otherwise. */
    method RecvMsg(buf: array<byte>) returns (rc: int, len: nat)
      modifies this`incoming, this`schedule, buf
      ensures rc == -1 || rc == 0 || rc == 1
      ensures rc == 0 ==> NextMessage(old(incoming), buf.Length) == Closed
      ensures rc == 1 ==> len <= buf.Length
      ensures rc == 1 ==> NextMessage(old(incoming), buf.Length) == Message(buf[..len], incoming)
      ensures NeverFails(old(schedule)) ==> NeverFails(schedule)
      ensures NeverFails(old(schedule)) && rc == -1 ==> NextMessage(old(incoming), buf.Length) == Broken
    {
      var wire := new byte[PREFIX];
      len := 0;
      var received := RecvAll(wire, PREFIX);
      if received == 0 {
        return 0, len;
      }
      if received != PREFIX {
        return -1, len;
      }
      assert wire[..] == old(incoming)[..PREFIX];
      var length := FromBigEndian(wire[..]);
      if length > buf.Length {
        return -1, len;
      }
      received := RecvAll(buf, length);
      if received != length {
        return -1, len;
      }
      assert old(incoming)[PREFIX..][..length] == old(incoming)[PREFIX..PREFIX + length];
      rc, len := 1, length;
    }
  }
}
