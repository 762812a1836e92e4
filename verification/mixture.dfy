/** What checking every peer's whole file, and never the assembled one, lets through (transfer/sender.c,
    transfer/receiver.c). */
module Mixture {
  import opened Bytes
  import opened Wrappers
  import opened Chunks
  import opened Serving
  import opened Segments
  import opened Sender
  import opened Transfer
  import opened Download
  import opened Progress
  import opened Collision
  import Fnv

  /** Peers that both passed the check for one request hold contents of one length and hash, so their contents never differ
      in exactly one byte. */
  lemma ValidatedPeersDiffer(r: Chunks.Request, a: seq<byte>, b: seq<byte>, k: nat)
    requires Servable(r, a) && Servable(r, b) && k < |a|
    ensures |a| == |b| && (a[..k] == b[..k] && a[k + 1..] == b[k + 1..] ==> a == b)
  {
    if a[..k] == b[..k] && a[k + 1..] == b[k + 1..] {
      assert a == a[..k] + [a[k]] + a[k + 1..] && b == a[..k] + [b[k]] + a[k + 1..];
      Fnv.OneByteChangesHash(a[..k], a[k], b[k], a[k + 1..]);
    }
  }

  lemma TwoSegments(hash: nat)
    ensures Plan(hash, 7, 2) == [Chunks.Request(hash, 7, 0, 2), Chunks.Request(hash, 7, 3, 6)]
  {
  }

  /** Two peers whose files both have the hash and size asked for, sending their segments in full and without a failure: the
      download succeeds, and the file it commits has another hash. */
  lemma ValidatedPeersCommitWrongFile(one: seq<byte>, other: seq<byte>) returns (job: Job, actions: seq<Action>)
    requires Colliding(one, other)
    ensures job.Valid() && |job.inputs| == 2 && job == PlannedJob(Fnv.Hash(one), 7, job.inputs, None)
    ensures Servable(job.plan[0], one) && Servable(job.plan[1], other)
    ensures AllServe(job, [one, other], WholeSends(job.plan)) && Commits(job, actions)
    ensures var final := Run(job, actions).final;
      final.Some? && Fnv.Hash(final.value) != job.plan[0].hash
  {
    MixtureHash(one, other);
    TwoSegments(Fnv.Hash(one));
    hide Plan, Partitions, Run, Transmission.Corrupts, Transmission.Stream, Transmission.Fits, Transmission.Taken, Fnv.Hash,
         Colliding, WholeSends, AllServe, Commits;
    job, actions := WholeJob(Fnv.Hash(one), 7, [one, other], None);
    MixtureCommitted(job, one, other, actions);
  }

  lemma MixtureCommitted(job: Job, one: seq<byte>, other: seq<byte>, actions: seq<Action>)
    requires |one| == |other| == 7 && job.Valid() && job.size == 7
    requires |job.plan| == 2 && job.plan[0].first == 0 && job.plan[0].last == 2 && job.plan[1].first == 3 && job.plan[1].last == 6
    requires AllServe(job, [one, other], WholeSends(job.plan)) && Commits(job, actions)
    requires forall i :: 0 <= i < 2 ==> !WholeSends(job.plan)[i].Corrupts([one, other][i], job.plan[i])
    ensures Run(job, actions).final == Some(one[..3] + other[3..])
  {
    hide Partitions, Run, Transmission.Corrupts, Transmission.Stream, Transmission.Fits, Transmission.Taken;
    var mixed, contents := one[..3] + other[3..], [one, other];
    assert mixed[0..3] == one[0..3] && mixed[3..7] == other[3..7];
    CommittedFileIsContent(job, contents, WholeSends(job.plan), mixed, actions);
  }
}
