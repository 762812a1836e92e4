/** What a download guarantees over every interleaving of its threads (transfer/receiver.c). */
module Download {
  import opened Bytes
  import opened Wrappers
  import opened Chunks
  import opened Delivery
  import opened Serving
  import opened Receiver
  import opened Segments
  import opened Transfer

  /** The job transfer_request sets up for a file of the given size and some peers. */
  function PlannedJob(hash: nat, size: nat, inputs: seq<seq<byte>>, before: Option<seq<byte>>): Job
    requires 0 < |inputs| <= size
  {
    Job(size, Plan(hash, size, |inputs|), inputs, before)
  }

  lemma PlannedJobValid(hash: nat, size: nat, inputs: seq<seq<byte>>, before: Option<seq<byte>>)
    requires 0 < |inputs| <= size && hash < UINT64_LIMIT && size < UINT64_LIMIT
    ensures PlannedJob(hash, size, inputs, before).Valid()
  {
    PlanIsPartition(hash, size, |inputs|);
  }

  /** The failure of worker i never reached the shared flag, because mark_failed did not get the lock. */
  predicate Lost(s: State, i: nat) {
    i < |s.workers| && s.workers[i].pc == Failed(false)
  }

  /** In every reachable state: the descriptor is closed only after every started worker is done; the final name is
      touched only by the one rename of a successful return, and then holds the assembled file. */
  lemma CommitDiscipline(job: Job, actions: seq<Action>)
    requires job.Valid()
    ensures var s := Run(job, actions);
      && (!s.open ==> forall i :: 0 <= i < s.started ==> s.workers[i].Done())
      && (s.renames == 1 <==> s.main == Returned(true))
      && (s.renames == 0 <==> s.main != Returned(true))
      && (s.main == Returned(true) ==> s.final == Some(s.file) && !s.partial && |s.file| == job.size)
      && (s.main != Returned(true) ==> s.final == job.before)
      && (s.main == Returned(true) ==> forall i :: 0 <= i < |s.workers| ==> s.workers[i].pc.Finished? || Lost(s, i))
  {
    hide Deliver, Run;
    ReachableInv(job, actions);
    var s := Run(job, actions);
    if s.main == Returned(true) {
      forall i | 0 <= i < |s.workers|
        ensures s.workers[i].pc.Finished? || Lost(s, i)
      {
        assert s.workers[i].Done();
      }
      SizeIsPositive(job);
    }
  }

  lemma ClosedStep(job: Job, s: State, a: Action)
    requires job.Valid() && Inv(job, s) && !s.open
    ensures Next(job, s, a).file == s.file && Next(job, s, a).workers == s.workers && !Next(job, s, a).open
  {
    hide Deliver, FileOk, Partitions, Resized;
    if IsWorkerAction(a) && a.i < |job.plan| {
      hide WorkerStep, StepData, Patch;
      assert s.workers[a.i].Done() || s.workers[a.i].pc.Unstarted?;
      StepDataFits(s.workers[a.i], job.plan[a.i], job.inputs[a.i], a);
      UnwrittenPatch(s.file, job.plan[a.i].first + s.workers[a.i].stored);
    }
  }

  /** Once the descriptor is closed no further step, of any thread, changes the file or reopens it. */
  lemma FrozenAfterClose(job: Job, actions: seq<Action>, a: Action)
    requires job.Valid() && !Run(job, actions).open
    ensures var s, s' := Run(job, actions), Run(job, actions + [a]);
            s'.file == s.file && s'.workers == s.workers && !s'.open
  {
    hide Deliver, Next, Inv;
    assert (actions + [a])[..|actions + [a]| - 1] == actions;
    ReachableInv(job, actions);
    ClosedStep(job, Run(job, actions), a);
  }

  lemma UnlinkStep(job: Job, s: State, a: Action)
    requires !s.main.Returned? ==> s.partial
    ensures var left := Next(job, s, a).main == Returned(false) && Next(job, s, a).partial;
      left <==> (s.main == Returned(false) && s.partial) || (s.main.Unlinking? && a == Unlink(false))
  {
    hide WorkerStep, StepData, Patch, Resized;
  }

  /** The n-th action of a run was an unlink, made and failed. */
  ghost predicate UnlinkFailed(job: Job, actions: seq<Action>, n: nat) {
    n < |actions| && Run(job, actions[..n]).main.Unlinking? && actions[n] == Unlink(false)
  }

  /** The partial file is there until the download returns, is gone after a success, and is left behind by a failed download
      exactly when unlink was called and failed. */
  lemma {:induction false} FailureUnlinks(job: Job, actions: seq<Action>)
    requires job.Valid()
    ensures !Run(job, actions).main.Returned? ==> Run(job, actions).partial
    ensures Run(job, actions).main == Returned(true) ==> !Run(job, actions).partial
    ensures Run(job, actions).main == Returned(false) && Run(job, actions).partial <==> exists n :: UnlinkFailed(job, actions, n)
  {
    hide Next, Inv, UnlinkFailed;
    PartialUntilReturn(job, actions);
    if actions != [] {
      var before, last := actions[..|actions| - 1], actions[|actions| - 1];
      FailureUnlinks(job, before);
      UnlinkStep(job, Run(job, before), last);
      UnlinkFailedSnoc(job, before, last);
      assert before + [last] == actions;
    } else {
      NothingUnlinked(job);
    }
  }

  lemma PartialUntilReturn(job: Job, actions: seq<Action>)
    requires job.Valid()
    ensures !Run(job, actions).main.Returned? ==> Run(job, actions).partial
    ensures Run(job, actions).main == Returned(true) ==> !Run(job, actions).partial
  {
    hide Run, WorkersOk, FileOk;
    ReachableInv(job, actions);
  }

  lemma NothingUnlinked(job: Job)
    ensures Run(job, []).main.Truncating? && forall n :: !UnlinkFailed(job, [], n)
  {
  }

  lemma {:induction false} UnlinkFailedSnoc(job: Job, before: seq<Action>, a: Action)
    ensures (exists n :: UnlinkFailed(job, before + [a], n)) <==>
      (exists n :: UnlinkFailed(job, before, n)) || (Run(job, before).main.Unlinking? && a == Unlink(false))
  {
    hide Run;
    var all := before + [a];
    assert all[..|before|] == before;
    forall n: nat | n < |before|
      ensures UnlinkFailed(job, all, n) <==> UnlinkFailed(job, before, n)
    {
      assert all[..n] == before[..n];
    }
    assert Run(job, before).main.Unlinking? && a == Unlink(false) ==> UnlinkFailed(job, all, |before|);
  }

  /** Where a successful download stands: range i of the file holds the stored part of what worker i took from its
      peer and zeros after it, and a finished worker has stored its whole segment. */
  lemma CommittedRange(job: Job, actions: seq<Action>, i: nat)
    requires job.Valid() && i < |job.plan| && Run(job, actions).main == Returned(true)
    ensures var s := Run(job, actions);
            var w, r := s.workers[i], job.plan[i];
      && |s.file| == job.size && w.stored <= |w.taken| <= r.Length()
      && w.taken <= Deliver(job.inputs[i], r, 0).data
      && s.file[r.first..r.last + 1] == w.taken[..w.stored] + Zeros(r.Length() - w.stored)
      && (!Lost(s, i) ==> w.stored == |w.taken| == r.Length())
  {
    hide Deliver, Run;
    ReachableInv(job, actions);
    CommitDiscipline(job, actions);
    var s := Run(job, actions);
    SizeIsPositive(job);
    assert WorkerOk(s.workers[i], job.plan[i], job.inputs[i]) && RangeOk(s.file, s.workers[i], job.plan[i]);
  }

  /** For arbitrary peers: if no failure was lost, every segment of a committed file was completed by its peer's
      stream and holds exactly what that stream delivers. */
  lemma CommittedFileIsDelivered(job: Job, actions: seq<Action>, i: nat)
    requires job.Valid() && i < |job.plan| && Run(job, actions).main == Returned(true) && !Lost(Run(job, actions), i)
    ensures Deliver(job.inputs[i], job.plan[i], 0).complete
    ensures |Run(job, actions).file| == job.size
    ensures Run(job, actions).file[job.plan[i].first..job.plan[i].last + 1] == Deliver(job.inputs[i], job.plan[i], 0).data
  {
    hide Deliver, Run;
    CommittedRange(job, actions, i);
    var w := Run(job, actions).workers[i];
    assert w.taken[..w.stored] == w.taken && Zeros(0) == [];
  }

  /** Two files that agree on every range of a partition are equal. */
  lemma EqualByRanges(p: seq<Request>, size: nat, a: seq<byte>, b: seq<byte>)
    requires Partitions(p, size) && |a| == |b| == size
    requires forall i :: 0 <= i < |p| ==> a[p[i].first..p[i].last + 1] == b[p[i].first..p[i].last + 1]
    ensures a == b
  {
    forall k | 0 <= k < size
      ensures a[k] == b[k]
    {
      var i := EveryByteHasOneOwner(p, size, k);
      assert a[k] == a[p[i].first..p[i].last + 1][k - p[i].first];
      assert b[k] == b[p[i].first..p[i].last + 1][k - p[i].first];
    }
  }

  /** The committed file depends on what the peers send and on nothing else: two successful runs of a job, however
      their threads are interleaved and their writes cut up, commit the same bytes. */
  lemma ScheduleIndependence(job: Job, one: seq<Action>, two: seq<Action>)
    requires job.Valid()
    requires Run(job, one).main == Returned(true) && Run(job, two).main == Returned(true)
    requires forall i :: 0 <= i < |job.plan| ==> !Lost(Run(job, one), i) && !Lost(Run(job, two), i)
    ensures Run(job, one).final == Run(job, two).final
  {
    hide Deliver, Run, Partitions;
    CommitDiscipline(job, one);
    CommitDiscipline(job, two);
    var a, b := Run(job, one).file, Run(job, two).file;
    forall i | 0 <= i < |job.plan|
      ensures a[job.plan[i].first..job.plan[i].last + 1] == b[job.plan[i].first..job.plan[i].last + 1]
    {
      CommittedFileIsDelivered(job, one, i);
      CommittedFileIsDelivered(job, two, i);
    }
    EqualByRanges(job.plan, job.size, a, b);
  }

  /** Peer i holds contents[i], and sends[i] says what of its answer went out. */
  ghost predicate AllServe(job: Job, contents: seq<seq<byte>>, sends: seq<Transmission>)
    requires job.Valid()
  {
    && |contents| == |sends| == |job.plan|
    && forall i :: 0 <= i < |job.plan| ==>
         && |contents[i]| == job.size && sends[i].Fits(contents[i], job.plan[i])
         && job.inputs[i] == sends[i].Stream(contents[i], job.plan[i])
  }

  /** With peers that each serve a content of their own, range i of the committed file is what peer i's answer gives: range
      i of peer i's content, if and only if no ERROR reply was taken for part of it. */
  lemma CommittedFileIsMixture(job: Job, contents: seq<seq<byte>>, sends: seq<Transmission>, actions: seq<Action>, i: nat)
    requires job.Valid() && AllServe(job, contents, sends) && i < |job.plan|
    requires Run(job, actions).main == Returned(true) && !Lost(Run(job, actions), i)
    ensures |Run(job, actions).file| == job.size
    ensures var range := Run(job, actions).file[job.plan[i].first..job.plan[i].last + 1];
      && range == sends[i].Taken(contents[i], job.plan[i])
      && (range == Slice(contents[i], job.plan[i]) <==> !sends[i].Corrupts(contents[i], job.plan[i]))
  {
    hide Deliver, Run, Partitions, Transmission.Taken, Transmission.Corrupts, Transmission.Fits, Transmission.Stream;
    CommittedFileIsDelivered(job, actions, i);
    StreamDelivers(contents[i], job.plan[i], sends[i]);
    SliceUnlessCorrupted(contents[i], job.plan[i], sends[i]);
  }

  /** The assembled file is never hashed, so what it holds is a matter of the peers alone: it is a given content if and only
      if every peer's answer gives that content's range.  Where no ERROR reply was taken for data, that means that every
      peer's own content agrees with it on the range asked of that peer. */
  lemma CommittedFileIsContent(job: Job, contents: seq<seq<byte>>, sends: seq<Transmission>, content: seq<byte>, actions: seq<Action>)
    requires job.Valid() && AllServe(job, contents, sends) && |content| == job.size
    requires Run(job, actions).main == Returned(true) && forall i :: 0 <= i < |job.plan| ==> !Lost(Run(job, actions), i)
    ensures Run(job, actions).final == Some(content) <==>
      forall i :: 0 <= i < |job.plan| ==> sends[i].Taken(contents[i], job.plan[i]) == Slice(content, job.plan[i])
    ensures (forall i :: 0 <= i < |job.plan| ==> !sends[i].Corrupts(contents[i], job.plan[i])) ==>
      (Run(job, actions).final == Some(content) <==>
       forall i :: 0 <= i < |job.plan| ==> Slice(contents[i], job.plan[i]) == Slice(content, job.plan[i]))
  {
    hide Deliver, Run, Partitions, Transmission.Taken, Transmission.Corrupts, Transmission.Fits, Transmission.Stream;
    CommitDiscipline(job, actions);
    var file := Run(job, actions).file;
    forall i | 0 <= i < |job.plan|
      ensures file[job.plan[i].first..job.plan[i].last + 1] == sends[i].Taken(contents[i], job.plan[i])
      ensures !sends[i].Corrupts(contents[i], job.plan[i]) ==>
        sends[i].Taken(contents[i], job.plan[i]) == Slice(contents[i], job.plan[i])
    {
      CommittedFileIsMixture(job, contents, sends, actions, i);
    }
    if forall i :: 0 <= i < |job.plan| ==> sends[i].Taken(contents[i], job.plan[i]) == Slice(content, job.plan[i]) {
      EqualByRanges(job.plan, job.size, file, content);
    }
  }

  /** What keeps range i of a committed file right: no ERROR reply was taken for part of it; or, when the worker's failure
      was lost, what it did store is right and the content has only zeros from there on. */
  ghost predicate RangeSound(job: Job, s: State, content: seq<byte>, t: Transmission, i: nat)
    requires job.Valid() && i < |job.plan| == |s.workers| && |content| == job.size && t.Fits(content, job.plan[i])
  {
    var w, r := s.workers[i], job.plan[i];
    if Lost(s, i) then
      && w.stored <= |t.Taken(content, r)| && w.stored <= r.Length()
      && t.Taken(content, r)[..w.stored] == Slice(content, r)[..w.stored]
      && Slice(content, r)[w.stored..] == Zeros(r.Length() - w.stored)
    else !t.Corrupts(content, r)
  }

  /** With peers that all hold one content, a download that returns success has put exactly that content under the final
      name, if and only if every range is sound.  In particular it always has when no failure was lost and no ERROR reply
      was taken for data. */
  lemma CommittedFileIsSource(job: Job, content: seq<byte>, sends: seq<Transmission>, actions: seq<Action>)
    requires job.Valid() && |content| == job.size
    requires AllServe(job, seq(|job.plan|, i => content), sends)
    requires Run(job, actions).main == Returned(true)
    ensures var s := Run(job, actions);
      && |s.workers| == |job.plan|
      && (s.final == Some(content) <==> forall i :: 0 <= i < |job.plan| ==> RangeSound(job, s, content, sends[i], i))
  {
    hide Deliver, Run, Partitions, RangeSound, Transmission.Fits, Transmission.Stream;
    var s := Run(job, actions);
    ReachableInv(job, actions);
    CommitDiscipline(job, actions);
    forall i | 0 <= i < |job.plan|
      ensures |s.file| == job.size
      ensures s.file[job.plan[i].first..job.plan[i].last + 1] == Slice(content, job.plan[i]) <==> RangeSound(job, s, content, sends[i], i)
    {
      RangeIsSource(job, content, sends, actions, i);
    }
    if forall i :: 0 <= i < |job.plan| ==> s.file[job.plan[i].first..job.plan[i].last + 1] == Slice(content, job.plan[i]) {
      EqualByRanges(job.plan, job.size, s.file, content);
    }
  }

  lemma RangeIsSource(job: Job, content: seq<byte>, sends: seq<Transmission>, actions: seq<Action>, i: nat)
    requires job.Valid() && |content| == job.size && i < |job.plan|
    requires AllServe(job, seq(|job.plan|, i => content), sends) && Run(job, actions).main == Returned(true)
    ensures var s, r := Run(job, actions), job.plan[i];
      && |s.workers| == |job.plan| && |s.file| == job.size
      && (s.file[r.first..r.last + 1] == Slice(content, r) <==> RangeSound(job, s, content, sends[i], i))
  {
    hide Deliver, Run, Partitions, Transmission.Taken, Transmission.Corrupts, Transmission.Fits, Transmission.Stream;
    var s, r := Run(job, actions), job.plan[i];
    var contents := seq(|job.plan|, i => content);
    assert contents[i] == content;
    CommitDiscipline(job, actions);
    CommittedRange(job, actions, i);
    if Lost(s, i) {
      StreamDelivers(content, r, sends[i]);
      PrefixAndRest(s.workers[i].taken[..s.workers[i].stored], Slice(content, r), Zeros(r.Length() - s.workers[i].stored));
      assert s.workers[i].taken[..s.workers[i].stored] == sends[i].Taken(content, r)[..s.workers[i].stored];
    } else {
      CommittedFileIsMixture(job, contents, sends, actions, i);
    }
  }

  lemma PrefixAndRest(a: seq<byte>, slice: seq<byte>, b: seq<byte>)
    requires |a| + |b| == |slice|
    ensures a + b == slice <==> a == slice[..|a|] && b == slice[|a|..]
  {
    if a + b == slice {
      assert (a + b)[..|a|] == a && (a + b)[|a|..] == b;
    }
  }

  lemma RunAppend(job: Job, actions: seq<Action>, a: Action)
    ensures Run(job, actions + [a]) == Next(job, Run(job, actions), a)
  {
    assert (actions + [a])[..|actions + [a]| - 1] == actions;
  }

  /** The condition is needed: a lost failure can commit a file that no peer ever sent.  One peer, one byte, a
      connection that fails, and a lock that mark_failed does not get. */
  lemma LostFailureCommitsWrongFile(job: Job) returns (actions: seq<Action>)
    requires job == PlannedJob(7, 1, [[]], None)
    ensures Run(job, actions).main == Returned(true) && Run(job, actions).final == Some([0])
  {
    var starting := StartOneWorker(job);
    hide Run, Patch, Deliver, WorkerReceive;
    var failed := Worker(Failed(false), [], [], 0);
    UnwrittenPatch([0], 0);
    RunAppend(job, starting, Connect(0, false, false));
    actions := starting + [Connect(0, false, false)];
    assert Run(job, actions) == State(Joining, [failed], 1, 0, false, [0], true, true, None, 0);
    RunAppend(job, actions, Join);
    actions := actions + [Join];
    RunAppend(job, actions, Decide);
    actions := actions + [Decide];
    assert Run(job, actions) == State(Syncing, [failed], 1, 1, false, [0], true, true, None, 0);
    hide Next;
    actions := CommitsFromSyncing(job, actions, failed);
  }

  /** Once past the joins the main thread can sync, close and rename. */
  lemma CommitsFromSyncing(job: Job, actions: seq<Action>, w: Worker) returns (all: seq<Action>)
    requires Run(job, actions) == State(Syncing, [w], 1, 1, false, [0], true, true, None, 0)
    ensures Run(job, all).main == Returned(true) && Run(job, all).final == Some([0])
  {
    hide Run, Patch, WorkerStep;
    RunAppend(job, actions, Sync(true));
    all := actions + [Sync(true)];
    RunAppend(job, all, Close(true));
    all := all + [Close(true)];
    RunAppend(job, all, Rename(true));
    all := all + [Rename(true)];
  }

  lemma OneWorkerTruncated(job: Job)
    requires job == PlannedJob(7, 1, [[]], None)
    ensures Run(job, [Truncate(true)]) == State(Starting, [Worker(Unstarted, [], [], 0)], 0, 0, false, [0], true, true, None, 0)
  {
    hide Plan;
    assert Resized([], 1) == [0];
    assert Run(job, []) == State(Truncating, [Worker(Unstarted, [], [], 0)], 0, 0, false, [], true, true, None, 0);
    assert [Truncate(true)][..0] == [];
  }

  lemma StartOneWorker(job: Job) returns (actions: seq<Action>)
    requires job == PlannedJob(7, 1, [[]], None)
    ensures Run(job, actions) == State(Joining, [Worker(Connecting, [], [], 0)], 1, 0, false, [0], true, true, None, 0)
  {
    hide Patch, Deliver, WorkerStep, StepData, Plan, SegmentRequest, Run, MainStep;
    actions := [Truncate(true)];
    OneWorkerTruncated(job);
    MainStartsWorker(job, Run(job, actions));
    RunAppend(job, actions, Start(true, true));
    actions := actions + [Start(true, true)];
    RunAppend(job, actions, Start(true, true));
    actions := actions + [Start(true, true)];
  }

  lemma MainStartsWorker(job: Job, s: State)
    requires s.main.Starting? && s.started == 0 && |s.workers| == 1
    ensures var s1 := MainStep(job, s, Start(true, true));
            s1 == s.(workers := [s.workers[0].(pc := Connecting)], started := 1)
            && MainStep(job, s1, Start(true, true)) == s1.(main := Joining)
  {
  }
}
