/** What a failed call does to a download (transfer/receiver.c): once one is noticed, the download never returns success. */
module Failures {
  import opened Bytes
  import opened Wrappers
  import opened Framing
  import opened Chunks
  import opened Delivery
  import opened Receiver
  import opened Segments
  import opened Transfer
  import opened Download

  /** A call that the action makes in this state fails, and the failure is noticed: one of the main thread's, or one of a
      worker's whose mark_failed gets the lock. */
  ghost predicate Fails(job: Job, s: State, a: Action) {
    match a
    case Truncate(ok) => s.main.Truncating? && !ok
    case Start(ok, _) => s.main.Starting? && s.started < |s.workers| && !ok
    case Sync(ok) => s.main.Syncing? && !ok
    case Close(ok) => s.main.Closing? && !ok
    case Rename(ok) => s.main.Renaming? && !ok
    case Connect(i, ok, locked) => i < |s.workers| && i < |job.plan| && s.workers[i].pc.Connecting? && !ok && locked
    case Request(i, ok, locked) => i < |s.workers| && i < |job.plan| && s.workers[i].pc.Requesting? && !ok && locked
    case Receive(i, ok, locked) =>
      && i < |s.workers| && i < |job.plan| && s.workers[i].pc.Receiving? && locked
      && |s.workers[i].taken| < job.plan[i].last + 1 - job.plan[i].first && (!ok || BadFrame(s.workers[i], job.plan[i]))
    case Write(i, count, locked) =>
      i < |s.workers| && i < |job.plan| && s.workers[i].pc.Writing? && s.workers[i].stored <= |s.workers[i].taken| && count == 0 && locked
    case _ => false
  }

  /** What comes next on the connection is no message, no chunk, or not the chunk that is due. */
  ghost predicate BadFrame(w: Worker, r: Chunks.Request) {
    match NextMessage(w.input, FRAME_CAPACITY)
    case Message(frame, _) => ParseChunk(frame).None? || !Accepts(ParseChunk(frame).value, r, |w.taken|)
    case _ => true
  }

  /** A download that can no longer succeed. */
  ghost predicate Doomed(s: State) {
    s.failed || s.main.Abandoning? || s.main.Unlinking? || s.main == Returned(false) || (s.main.Joining? && s.started < |s.workers|)
  }

  lemma {:induction false} WorkerFailureDooms(job: Job, s: State, a: Action)
    requires IsWorkerAction(a) && Fails(job, s, a)
    ensures Doomed(Next(job, s, a))
  {
    hide NextMessage, ParseChunk, Accepts, Patch, StepData;
    WorkerActionEffects(job, s, a);
  }

  lemma {:induction false} FailureDooms(job: Job, s: State, a: Action)
    requires Fails(job, s, a)
    ensures Doomed(Next(job, s, a))
  {
    if IsWorkerAction(a) {
      WorkerFailureDooms(job, s, a);
    } else {
      hide Resized;
    }
  }

  lemma {:induction false} StaysDoomed(job: Job, s: State, a: Action)
    requires job.Valid() && Inv(job, s) && Doomed(s)
    ensures Doomed(Next(job, s, a))
  {
    hide FileOk, WorkersOk, Partitions;
    if IsWorkerAction(a) {
      hide WorkerStep, Patch, StepData;
    } else {
      hide Resized;
    }
  }

  lemma {:induction false} RunStaysDoomed(job: Job, all: seq<Action>, n: nat)
    requires job.Valid() && n <= |all| && Doomed(Run(job, all[..n]))
    ensures Doomed(Run(job, all))
  {
    if n == |all| {
      assert all[..n] == all;
    } else {
      var init := all[..|all| - 1];
      assert init[..n] == all[..n];
      assert Run(job, all) == Next(job, Run(job, init), all[|all| - 1]);
      hide Next, Inv, Doomed, Run, Partitions;
      RunStaysDoomed(job, init, n);
      ReachableInv(job, init);
      StaysDoomed(job, Run(job, init), all[|all| - 1]);
    }
  }

  lemma {:induction false} DoomedNeverSucceeds(job: Job, s: State)
    requires job.Valid() && Inv(job, s) && Doomed(s)
    ensures s.main != Returned(true)
  {
  }

  /** A failed ftruncate, thread start, fsync, close or rename, and any failure of a worker that gets the lock, is fatal: no
      continuation of the run returns success, and the final name keeps what it held. */
  lemma {:induction false} FailureIsFatal(job: Job, before: seq<Action>, a: Action, after: seq<Action>)
    requires job.Valid() && Fails(job, Run(job, before), a)
    ensures Run(job, before + [a] + after).main != Returned(true)
    ensures Run(job, before + [a] + after).final == job.before
  {
    hide Next, Inv, Fails, Doomed, Run;
    RunAppend(job, before, a);
    FailureDooms(job, Run(job, before), a);
    var all := before + [a] + after;
    assert all[..|before| + 1] == before + [a];
    RunStaysDoomed(job, all, |before| + 1);
    ReachableInv(job, before + [a] + after);
    DoomedNeverSucceeds(job, Run(job, before + [a] + after));
    CommitDiscipline(job, before + [a] + after);
  }

  // --- What success took ---

  function Starts(actions: seq<Action>): nat {
    if actions == [] then 0
    else Starts(actions[..|actions| - 1]) + (if actions[|actions| - 1].Start? && actions[|actions| - 1].ok then 1 else 0)
  }

  ghost predicate Connected(actions: seq<Action>, i: nat) {
    exists locked :: Connect(i, true, locked) in actions
  }

  ghost predicate Asked(actions: seq<Action>, i: nat) {
    exists locked :: Action.Request(i, true, locked) in actions
  }

  /** The calls that lie behind a state have succeeded. */
  ghost predicate Took(s: State, actions: seq<Action>) {
    MainTook(s, actions) && forall i :: 0 <= i < |s.workers| ==> WorkerTook(s.workers[i], actions, i)
  }

  ghost predicate WorkerTook(w: Worker, actions: seq<Action>, i: nat) {
    && (w.pc.Requesting? || w.pc.Receiving? || w.pc.Writing? || w.pc.Finished? ==> Connected(actions, i))
    && (w.pc.Receiving? || w.pc.Writing? || w.pc.Finished? ==> Asked(actions, i))
  }

  lemma {:induction false} LongerTook(w: Worker, before: seq<Action>, a: Action, i: nat)
    requires WorkerTook(w, before, i)
    ensures WorkerTook(w, before + [a], i)
  {
    if locked :| Connect(i, true, locked) in before {
      assert Connect(i, true, locked) in before + [a];
    }
    if locked :| Action.Request(i, true, locked) in before {
      assert Action.Request(i, true, locked) in before + [a];
    }
  }

  lemma {:induction false} WorkerStepTook(w: Worker, r: Chunks.Request, before: seq<Action>, a: Action)
    requires IsWorkerAction(a) && WorkerTook(w, before, a.i)
    ensures WorkerTook(WorkerStep(w, r, a), before + [a], a.i)
  {
    hide NextMessage, ParseChunk, Accepts;
    LongerTook(w, before, a, a.i);
    assert a in before + [a];
  }

  // The part of Took that is about the main thread.
  ghost predicate MainTook(s: State, actions: seq<Action>) {
    && (s.main.Starting? || s.main.Joining? || s.main.Syncing? || s.main.Closing? || s.main.Renaming? || s.main == Returned(true) ==>
          Truncate(true) in actions)
    && (s.main.Closing? || s.main.Renaming? || s.main == Returned(true) ==> Sync(true) in actions)
    && (s.main.Renaming? || s.main == Returned(true) ==> Close(true) in actions)
    && (s.main == Returned(true) ==> Rename(true) in actions)
    && s.started <= Starts(actions)
  }

  /** How the main thread can have got where it is. */
  lemma {:induction false} MainCame(job: Job, s: State, a: Action)
    ensures var m, m' := s.main, Next(job, s, a).main;
      && (m'.Starting? ==> m.Starting? || a == Truncate(true))
      && (m'.Joining? ==> m.Joining? || m.Starting?)
      && (m'.Syncing? ==> m.Syncing? || m.Joining?)
      && (m'.Closing? ==> m.Closing? || (m.Syncing? && a == Sync(true)))
      && (m'.Renaming? ==> m.Renaming? || (m.Closing? && a == Close(true)))
      && (m' == Returned(true) ==> m == Returned(true) || (m.Renaming? && a == Rename(true)))
    ensures Next(job, s, a).started == s.started || (Next(job, s, a).started == s.started + 1 && a.Start? && a.ok)
  {
    hide WorkerStep, Patch, StepData, Resized;
  }

  lemma {:induction false} StartsSnoc(before: seq<Action>, a: Action)
    ensures Starts(before + [a]) == Starts(before) + (if a.Start? && a.ok then 1 else 0)
    ensures forall b :: b in before + [a] <==> b in before || b == a
  {
    assert (before + [a])[..|before|] == before;
  }

  lemma {:induction false} MainStepTook(job: Job, s: State, before: seq<Action>, a: Action)
    requires MainTook(s, before)
    ensures MainTook(Next(job, s, a), before + [a])
  {
    hide Next, Starts;
    StartsSnoc(before, a);
    MainCame(job, s, a);
  }

  lemma {:induction false} WorkersStepTook(job: Job, s: State, before: seq<Action>, a: Action, i: nat)
    requires i < |s.workers| == |job.plan| && WorkerTook(s.workers[i], before, i)
    ensures WorkerTook(Next(job, s, a).workers[i], before + [a], i)
  {
    hide WorkerTook, WorkerStep, Patch, StepData, Resized;
    LongerTook(s.workers[i], before, a, i);
    StartTook(s.workers[i], before + [a], i);
    if IsWorkerAction(a) && i == a.i {
      WorkerStepTook(s.workers[i], job.plan[i], before, a);
    }
  }

  lemma {:induction false} StepTook(job: Job, s: State, before: seq<Action>, a: Action)
    requires Took(s, before) && |s.workers| == |job.plan|
    ensures Took(Next(job, s, a), before + [a])
  {
    hide WorkerTook, MainTook, Next;
    MainStepTook(job, s, before, a);
    forall i | 0 <= i < |s.workers|
      ensures WorkerTook(Next(job, s, a).workers[i], before + [a], i)
    {
      WorkersStepTook(job, s, before, a, i);
    }
  }

  lemma StartTook(w: Worker, actions: seq<Action>, i: nat)
    ensures WorkerTook(w.(pc := Connecting), actions, i)
  {
  }

  lemma {:induction false} RunTook(job: Job, actions: seq<Action>)
    requires |job.inputs| == |job.plan|
    ensures Took(Run(job, actions), actions)
  {
    if actions != [] {
      hide Next, Took;
      var before, last := actions[..|actions| - 1], actions[|actions| - 1];
      RunTook(job, before);
      StepTook(job, Run(job, before), before, last);
      assert before + [last] == actions;
    }
  }

  /** A download that succeeds has made and passed all its calls: ftruncate, the start of every thread, fsync, close and
      rename, and every worker whose failure was not lost has connected to its peer and asked for its segment. */
  lemma {:induction false} SuccessTook(job: Job, actions: seq<Action>)
    requires job.Valid() && Run(job, actions).main == Returned(true)
    ensures Truncate(true) in actions && Sync(true) in actions && Close(true) in actions && Rename(true) in actions
    ensures Starts(actions) >= |job.plan|
    ensures forall i :: 0 <= i < |job.plan| && !Lost(Run(job, actions), i) ==> Connected(actions, i) && Asked(actions, i)
  {
    hide Run;
    ReachableInv(job, actions);
    RunTook(job, actions);
    CommitDiscipline(job, actions);
    var s := Run(job, actions);
    forall i | 0 <= i < |job.plan| && !Lost(s, i)
      ensures Connected(actions, i) && Asked(actions, i)
    {
      assert WorkerTook(s.workers[i], actions, i) && s.workers[i].pc.Finished?;
    }
  }
}
