/** How transfer_request divides a file among peers (transfer/receiver.c). */
module Segments {
  import opened Bytes
  import opened Addresses
  import opened Chunks
  import opened Receiver

  function ActiveCount(size: nat, peers: nat): nat {
    if peers > size then size else peers
  }

  /** The range of the i-th of `active` segments: equal shares, the last one also taking what is left over. */
  function SegmentRequest(hash: nat, size: nat, active: nat, i: nat): Request
    requires 0 < active <= size && i < active
  {
    var share := size / active;
    ShareBounds(size, active, i);
    Request(hash, size, i * share, if i + 1 == active then size - 1 else i * share + share - 1)
  }

  function Plan(hash: nat, size: nat, active: nat): (p: seq<Request>)
    requires 0 < active <= size
    ensures |p| == active && forall i :: 0 <= i < active ==> p[i] == SegmentRequest(hash, size, active, i)
  {
    seq(active, i requires 0 <= i < active => SegmentRequest(hash, size, active, i))
  }

  lemma ShareBounds(size: nat, active: nat, i: nat)
    requires 0 < active <= size && i < active
    ensures 1 <= size / active
    ensures 0 <= i * (size / active)
    ensures i * (size / active) + size / active <= size
    ensures i + 1 == active ==> size - i * (size / active) < size / active + active
  {
    var share := size / active;
    assert active * share <= size < active * share + active;
    AtLeastOne(share, active, size);
    assert i * share + share == (i + 1) * share;
    Grows(i + 1, active, share);
  }

  lemma AtLeastOne(share: nat, active: nat, size: nat)
    requires 0 < active <= size < active * share + active
    ensures share >= 1
  {
  }

  lemma Grows(a: nat, b: nat, share: nat)
    requires a <= b
    ensures a * share <= b * share
  {
    assert (b - a) * share >= 0;
    assert b * share == a * share + (b - a) * share;
  }

  lemma SegmentIs(hash: nat, size: nat, active: nat, i: nat)
    requires 0 < active <= size && i < active
    ensures var first, share := i * (size / active), size / active;
      && 0 <= first && 1 <= share && first + share <= size
      && SegmentRequest(hash, size, active, i) == Request(hash, size, first, if i + 1 == active then size - 1 else first + share - 1)
  {
    ShareBounds(size, active, i);
  }

  /** One row of the segment table.  The 64-bit products and sums do not wrap. */
  method PlanSegment(hash: uint64, size: uint64, active: uint64, i: uint64) returns (segment: Segment)
    requires 0 < active <= size && i < active
    ensures segment.AsRequest() == SegmentRequest(hash as nat, size as nat, active as nat, i as nat)
  {
    hide SegmentRequest;
    SegmentIs(hash as nat, size as nat, active as nat, i as nat);
    var share := size / active;
    assert share as nat == size as nat / active as nat;
    var start := i * share;
    segment := Segment(hash, size, start, if i + 1 == active then size - 1 else start + share - 1);
  }

  // segment_request_t: a segment and the peer that is asked for it.
  datatype Assignment = Assignment(segment: Segment, peer: Addr)

  /** Fills the segment table: the i-th peer is asked for the i-th segment, and every peer is asked unless there are more peers
      than bytes. */
  method PlanSegments(hash: uint64, size: uint64, peers: seq<Addr>) returns (segments: array<Assignment>)
    requires size > 0 && 0 < |peers| < UINT64_LIMIT
    ensures fresh(segments) && segments.Length == if |peers| > size as nat then size as nat else |peers|
    ensures forall i :: 0 <= i < segments.Length ==>
      segments[i].segment.AsRequest() == Plan(hash as nat, size as nat, segments.Length)[i] && segments[i].peer == peers[i]
  {
    hide Plan, SegmentRequest;
    var activeCount := |peers| as uint64;
    if activeCount > size {
      activeCount := size;
    }
    segments := new Assignment[activeCount](_ => Assignment(Segment(hash, size, 0, 0), Addr("", 0)));
    var i: uint64 := 0;
    while i < activeCount
      invariant i <= activeCount && segments.Length == activeCount as nat
      invariant forall k :: 0 <= k < i as nat ==>
        segments[k].segment.AsRequest() == SegmentRequest(hash as nat, size as nat, activeCount as nat, k)
        && segments[k].peer == peers[k]
    {
      var segment := PlanSegment(hash, size, activeCount, i);
      segments[i] := Assignment(segment, peers[i]);
      i := i + 1;
    }
  }

  /** The ranges are non-empty, start at 0, follow one another without gap or overlap and end at the last byte. */
  ghost predicate Partitions(p: seq<Request>, size: nat) {
    && p != []
    && p[0].first == 0 && p[|p| - 1].last == size - 1
    && (forall i :: 0 <= i < |p| ==> p[i].first <= p[i].last < size)
    && (forall i :: 0 <= i < |p| - 1 ==> p[i].last + 1 == p[i + 1].first)
  }

  /** The plan is a partition of the file into min(peers, size) shares of size / active bytes, of which the last
      is longer by less than the number of shares. */
  lemma PlanIsPartition(hash: nat, size: nat, peers: nat)
    requires size > 0 && peers > 0
    ensures var active := ActiveCount(size, peers);
            var p := Plan(hash, size, active);
            && |p| == (if peers > size then size else peers)
            && Partitions(p, size)
            && (forall i :: 0 <= i < active - 1 ==> p[i].last + 1 - p[i].first == size / active)
            && size / active <= p[active - 1].last + 1 - p[active - 1].first < size / active + active
            && (forall i :: 0 <= i < active ==> p[i].hash == hash && p[i].size == size)
  {
    var active := ActiveCount(size, peers);
    var p := Plan(hash, size, active);
    var share := size / active;
    assert p[0].first == 0 * share == 0;
    ShareBounds(size, active, active - 1);
    forall i | 0 <= i < active
      ensures p[i].first <= p[i].last < size
    {
      ShareBounds(size, active, i);
    }
    forall i | 0 <= i < active - 1
      ensures p[i].last + 1 == p[i + 1].first
    {
      assert (i + 1) * share == i * share + share;
    }
  }

  /** In a partition an earlier range ends before a later one starts. */
  lemma {:induction false} RangesOrdered(p: seq<Request>, size: nat, i: nat, j: nat)
    requires Partitions(p, size) && i < j < |p|
    ensures p[i].last < p[j].first
    decreases j - i
  {
    if i + 1 < j {
      RangesOrdered(p, size, i + 1, j);
    }
  }

  /** In a partition every byte belongs to exactly one range. */
  lemma {:induction false} EveryByteHasOneOwner(p: seq<Request>, size: nat, k: nat) returns (i: nat)
    requires Partitions(p, size) && k < size
    ensures i < |p| && p[i].first <= k <= p[i].last
    ensures forall j :: 0 <= j < |p| && p[j].first <= k <= p[j].last ==> j == i
  {
    i := 0;
    while k > p[i].last
      invariant i < |p| && p[i].first <= k
      decreases |p| - i
    {
      i := i + 1;
    }
    forall j | 0 <= j < |p| && p[j].first <= k <= p[j].last
      ensures j == i
    {
      if j < i {
        RangesOrdered(p, size, j, i);
      } else if i < j {
        RangesOrdered(p, size, i, j);
      }
    }
  }
}
