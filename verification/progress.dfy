/** How a download ends (transfer/receiver.c): after a bounded number of steps, always in a return; and in success, from every
    state without a failure, if and only if every peer's stream completes its segment. */
module Progress {
  import opened Bytes
  import opened Wrappers
  import opened Framing
  import opened Chunks
  import opened Delivery
  import opened Serving
  import opened Receiver
  import opened Segments
  import opened Transfer
  import opened Download

  /** Nothing has failed so far: no worker, no thread start, and the main thread is not cleaning up. */
  ghost predicate Undisturbed(s: State) {
    && !s.failed && !(s.main.Abandoning? || s.main.Unlinking? || s.main == Returned(false))
    && (s.main.Joining? ==> s.started == |s.workers|)
    && forall i :: 0 <= i < |s.workers| ==> !s.workers[i].pc.Failed?
  }

  ghost predicate AllComplete(job: Job)
    requires job.Valid()
  {
    forall i :: 0 <= i < |job.plan| ==> Deliver(job.inputs[i], job.plan[i], 0).complete
  }

  // --- What is left to do ---

  function WorkerRest(w: Worker): nat {
    2 * |w.input| + (if w.stored <= |w.taken| then |w.taken| - w.stored else 0)
    + match w.pc
      case Unstarted => 4
      case Connecting => 3
      case Requesting => 2
      case Receiving => 1
      case Writing => 1
      case Finished => 0
      case Failed(_) => 0
  }

  function WorkRest(workers: seq<Worker>): nat {
    if workers == [] then 0 else WorkRest(workers[..|workers| - 1]) + WorkerRest(workers[|workers| - 1])
  }

  function MainRest(main: MainPc): nat {
    match main
    case Truncating => 7
    case Starting => 6
    case Joining => 5
    case Syncing => 4
    case Closing => 3
    case Renaming => 2
    case Abandoning => 2
    case Unlinking => 1
    case Returned(_) => 0
  }

  function Rest(s: State): nat {
    MainRest(s.main) + WorkRest(s.workers)
    + (if s.started <= |s.workers| then |s.workers| - s.started else 0)
    + (if s.joined <= |s.workers| then |s.workers| - s.joined else 0)
  }

  lemma {:induction false} LessWork(workers: seq<Worker>, i: nat, w: Worker)
    requires i < |workers| && WorkerRest(w) < WorkerRest(workers[i])
    ensures WorkRest(workers[i := w]) < WorkRest(workers)
  {
    hide WorkerRest;
    var n := |workers| - 1;
    if i < n {
      LessWork(workers[..n], i, w);
      assert workers[i := w][..n] == workers[..n][i := w];
    } else {
      assert workers[i := w][..n] == workers[..n];
    }
  }

  // --- Every download returns ---

  /** A step of a worker either does nothing or leaves less to do. */
  lemma WorkerStepDecreases(w: Worker, r: Chunks.Request, a: Action)
    requires IsWorkerAction(a)
    ensures WorkerStep(w, r, a) == w || WorkerRest(WorkerStep(w, r, a)) < WorkerRest(w)
    ensures WorkerStep(w, r, a) == w ==> StepData(w, a) == []
  {
    hide NextMessage, ParseChunk;
    FrameIsLonger(w.input);
  }

  lemma MainStepDecreases(job: Job, s: State, a: Action)
    requires s.started <= |s.workers| && s.joined <= |s.workers|
    requires s.main.Starting? && s.started < |s.workers| ==> s.workers[s.started].pc.Unstarted?
    ensures MainStep(job, s, a) == s || Rest(MainStep(job, s, a)) < Rest(s)
  {
    if s.main.Truncating? || s.main.Starting? || s.main.Joining? {
      hide Resized, WorkRest;
      if s.main.Starting? && s.started < |s.workers| {
        LessWork(s.workers, s.started, s.workers[s.started].(pc := Connecting));
      }
    } else {
      LateStepDecreases(job, s, a);
    }
  }

  lemma LateStepDecreases(job: Job, s: State, a: Action)
    requires !(s.main.Truncating? || s.main.Starting? || s.main.Joining?)
    ensures MainStep(job, s, a) == s || Rest(MainStep(job, s, a)) < Rest(s)
  {
    hide Resized, WorkRest;
  }

  /** Every step of any thread either does nothing or leaves less to do. */
  lemma StepDecreases(job: Job, s: State, a: Action)
    requires job.Valid() && Inv(job, s)
    ensures Next(job, s, a) == s || Rest(Next(job, s, a)) < Rest(s)
  {
    hide MainStep, WorkerStep, StepData, WorkRest, WorkerRest, Patch, FileOk, WorkerOk, Partitions, Deliver;
    if !IsWorkerAction(a) {
      MainStepDecreases(job, s, a);
    } else if a.i < |job.plan| {
      var w := s.workers[a.i];
      var w' := WorkerStep(w, job.plan[a.i], a);
      WorkerStepDecreases(w, job.plan[a.i], a);
      if w' == w {
        UnwrittenPatch(s.file, job.plan[a.i].first + w.stored);
        PutBack(s.workers, a.i);
        SameFailure(w, s.failed);
      } else {
        LessWork(s.workers, a.i, w');
      }
    }
  }

  lemma PutBack(workers: seq<Worker>, i: nat)
    requires i < |workers|
    ensures workers[i := workers[i]] == workers
  {
  }

  lemma SameFailure(w: Worker, failed: bool)
    ensures failed == (failed || (w.pc == Failed(true) && !w.Done()))
  {
  }

  /** The steps of a run that did something. */
  function EffectiveSteps(job: Job, actions: seq<Action>): nat {
    if actions == [] then 0
    else
      var before := actions[..|actions| - 1];
      EffectiveSteps(job, before) + (if Next(job, Run(job, before), actions[|actions| - 1]) == Run(job, before) then 0 else 1)
  }

  function TotalBytes(inputs: seq<seq<byte>>): nat {
    if inputs == [] then 0 else TotalBytes(inputs[..|inputs| - 1]) + |inputs[|inputs| - 1]|
  }

  lemma {:induction false} InitialWork(inputs: seq<seq<byte>>, workers: seq<Worker>)
    requires |workers| == |inputs| && forall i :: 0 <= i < |inputs| ==> workers[i] == Worker(Unstarted, inputs[i], [], 0)
    ensures WorkRest(workers) == 2 * TotalBytes(inputs) + 4 * |inputs|
  {
    if inputs != [] {
      InitialWork(inputs[..|inputs| - 1], workers[..|inputs| - 1]);
    }
  }

  /** However its threads are scheduled and whatever fails, a download takes no more effective steps than 7, 6 for each
      segment and 2 for each byte the peers send. */
  lemma {:induction false} StepsBounded(job: Job, actions: seq<Action>)
    requires job.Valid()
    ensures EffectiveSteps(job, actions) + Rest(Run(job, actions)) <= 7 + 6 * |job.inputs| + 2 * TotalBytes(job.inputs)
  {
    hide Next, Inv, Partitions;
    if actions == [] {
      InitialWork(job.inputs, Init(job).workers);
    } else {
      hide Rest;
      var before := actions[..|actions| - 1];
      StepsBounded(job, before);
      ReachableInv(job, before);
      StepDecreases(job, Run(job, before), actions[|actions| - 1]);
    }
  }

  function Onward(s: State): Action {
    match s.main
    case Truncating => Truncate(false)
    case Starting => Start(false, true)
    case Joining =>
      if s.joined < s.started && s.joined < |s.workers| then
        (if s.workers[s.joined].Done() then Join else GiveUp(s.workers[s.joined], s.joined))
      else Decide
    case Syncing => Sync(true)
    case Closing => Close(true)
    case Renaming => Rename(true)
    case Abandoning => Abandon
    case _ => Unlink(true)
  }

  function GiveUp(w: Worker, i: nat): (a: Action)
    ensures IsWorkerAction(a) && a.i == i
  {
    match w.pc
    case Requesting => Action.Request(i, false, true)
    case Receiving => Receive(i, false, true)
    case Writing => Write(i, 0, true)
    case _ => Connect(i, false, true)
  }

  lemma SomethingToDo(job: Job, s: State)
    requires job.Valid() && Inv(job, s) && !s.main.Returned?
    ensures Next(job, s, Onward(s)) != s
  {
    hide Resized, Patch, FileOk, Deliver, Partitions, NextMessage, ParseChunk;
    if s.main.Joining? && s.joined < s.started && !s.workers[s.joined].Done() {
      var i := s.joined;
      var w := s.workers[i];
      assert WorkerOk(w, job.plan[i], job.inputs[i]) && !w.pc.Unstarted?;
      hide Inv, WorkersOk, WorkerOk, MainOk;
      assert WorkerStep(w, job.plan[i], GiveUp(w, i)) != w;
      assert Next(job, s, GiveUp(w, i)).workers[i] != w;
    }
  }

  /** No state is a dead end: from every state of every run, failed or not, some continuation returns. */
  lemma CanAlwaysReturn(job: Job, actions: seq<Action>) returns (more: seq<Action>)
    requires job.Valid()
    ensures Run(job, actions + more).main.Returned?
    decreases Rest(Run(job, actions))
  {
    hide Next, Inv, Rest, Onward, Run, Partitions;
    var s := Run(job, actions);
    if s.main.Returned? {
      more := [];
      assert actions + more == actions;
    } else {
      ReachableInv(job, actions);
      SomethingToDo(job, s);
      StepDecreases(job, s, Onward(s));
      RunAppend(job, actions, Onward(s));
      more := CanAlwaysReturn(job, actions + [Onward(s)]);
      assert actions + ([Onward(s)] + more) == actions + [Onward(s)] + more;
      more := [Onward(s)] + more;
    }
  }

  // --- One step closer ---

  function WorkerAction(w: Worker, i: nat): (a: Action)
    ensures IsWorkerAction(a) && a.i == i
  {
    match w.pc
    case Requesting => Action.Request(i, true, true)
    case Receiving => Receive(i, true, true)
    case Writing => Write(i, if w.stored <= |w.taken| then |w.taken| - w.stored else 0, true)
    case _ => Connect(i, true, true)
  }

  /** What is still to come on an unfailed worker's connection completes its segment. */
  lemma StillComplete(w: Worker, r: Chunks.Request, input: seq<byte>)
    requires r.Valid() && WorkerOk(w, r, input) && (w.pc.Receiving? || w.pc.Writing?) && Deliver(input, r, 0).complete
    ensures Deliver(w.input, r, |w.taken|).complete
  {
    hide Deliver;
  }

  lemma WorkerMoves(w: Worker, r: Chunks.Request, input: seq<byte>, i: nat)
    requires r.Valid() && WorkerOk(w, r, input) && !w.Done() && !w.pc.Unstarted? && Deliver(input, r, 0).complete
    ensures var w' := WorkerStep(w, r, WorkerAction(w, i));
            !w'.pc.Failed? && WorkerRest(w') < WorkerRest(w)
  {
    hide NextMessage, ParseChunk;
    if w.pc.Receiving? {
      StillComplete(w, r, input);
      var d := Deliver(w.input, r, |w.taken|);
      if |w.taken| < r.Length() {
        FrameIsLonger(w.input);
      }
    }
  }

  /** A chunk is shorter than the message it came in. */
  lemma FrameIsLonger(s: seq<byte>)
    ensures match NextMessage(s, FRAME_CAPACITY)
            case Message(frame, rest) => |rest| + |frame| <= |s| && (ParseChunk(frame).Some? ==> |ParseChunk(frame).value.data| < |frame|)
            case _ => true
  {
    hide FromBigEndian;
  }

  function NextAction(s: State): Action {
    match s.main
    case Truncating => Truncate(true)
    case Starting => Start(true, true)
    case Joining =>
      if s.joined < s.started && s.joined < |s.workers| then
        (if s.workers[s.joined].Done() then Join else WorkerAction(s.workers[s.joined], s.joined))
      else Decide
    case Syncing => Sync(true)
    case Closing => Close(true)
    case Renaming => Rename(true)
    case _ => Unlink(true)
  }

  lemma JoinedWorkerMoves(job: Job, s: State)
    requires job.Valid() && Inv(job, s) && Undisturbed(s) && AllComplete(job)
    requires s.main.Joining? && s.joined < s.started && !s.workers[s.joined].Done()
    ensures Undisturbed(Next(job, s, NextAction(s))) && Rest(Next(job, s, NextAction(s))) < Rest(s)
  {
    hide WorkerStep, WorkerRest, Patch, StepData, Deliver, FileOk, WorkRest, WorkerOk, Partitions;
    var i := s.joined;
    var a := WorkerAction(s.workers[i], i);
    var w' := WorkerStep(s.workers[i], job.plan[i], a);
    WorkerMoves(s.workers[i], job.plan[i], job.inputs[i], i);
    LessWork(s.workers, i, w');
    assert Next(job, s, a).workers == s.workers[i := w'];
  }

  lemma MainMoves(job: Job, s: State)
    requires MainOk(job, s) && Undisturbed(s) && job.size <= OFF_MAX && s.main != Returned(true)
    requires s.main.Starting? ==> forall i :: 0 <= i < |s.workers| ==> (s.workers[i].pc.Unstarted? <==> i >= s.started)
    requires s.main.Joining? && s.joined < s.started ==> s.workers[s.joined].Done()
    ensures Undisturbed(MainStep(job, s, NextAction(s))) && Rest(MainStep(job, s, NextAction(s))) < Rest(s)
    ensures !IsWorkerAction(NextAction(s))
  {
    hide Resized, WorkRest, WorkerAction;
    if s.main.Starting? && s.started < |s.workers| {
      var w := s.workers[s.started];
      LessWork(s.workers, s.started, w.(pc := Connecting));
    }
  }

  lemma Moves(job: Job, s: State)
    requires job.Valid() && Inv(job, s) && Undisturbed(s) && AllComplete(job) && job.size <= OFF_MAX && s.main != Returned(true)
    ensures Undisturbed(Next(job, s, NextAction(s))) && Rest(Next(job, s, NextAction(s))) < Rest(s)
  {
    hide MainStep, WorkerStep, Rest, FileOk, WorkerOk, Undisturbed, AllComplete, Partitions, Patch, StepData, NextAction;
    if s.main.Joining? && s.joined < s.started && !s.workers[s.joined].Done() {
      JoinedWorkerMoves(job, s);
    } else {
      MainMoves(job, s);
    }
  }

  /** From every state of every run in which nothing has failed, and with peers whose streams complete their segments,
      there is a continuation that commits the file with no failure at all. */
  lemma CanStillComplete(job: Job, actions: seq<Action>) returns (more: seq<Action>)
    requires job.Valid() && AllComplete(job) && job.size <= OFF_MAX && Undisturbed(Run(job, actions))
    ensures Run(job, actions + more).main == Returned(true) && Undisturbed(Run(job, actions + more))
    decreases Rest(Run(job, actions))
  {
    hide Next, Inv, Rest, Undisturbed, AllComplete, NextAction, Run;
    var s := Run(job, actions);
    if s.main == Returned(true) {
      more := [];
      assert actions + more == actions;
    } else {
      ReachableInv(job, actions);
      Moves(job, s);
      var a := NextAction(s);
      RunAppend(job, actions, a);
      more := CanStillComplete(job, actions + [a]);
      assert actions + ([a] + more) == actions + [a] + more;
      more := [a] + more;
    }
  }

  /** ftruncate refuses a size that is no file offset, and the download ends in failure. */
  lemma {:induction false} TooLargeStep(job: Job, s: State, a: Action)
    requires job.size > OFF_MAX
    requires s.main.Truncating? || s.main.Abandoning? || s.main.Unlinking? || s.main == Returned(false)
    ensures var m := Next(job, s, a).main; m.Truncating? || m.Abandoning? || m.Unlinking? || m == Returned(false)
  {
    hide WorkerStep, Patch, StepData, Resized;
  }

  lemma {:induction false} TooLargeNeverCommits(job: Job, actions: seq<Action>)
    requires job.size > OFF_MAX
    ensures var m := Run(job, actions).main; m.Truncating? || m.Abandoning? || m.Unlinking? || m == Returned(false)
  {
    if actions != [] {
      hide Next;
      TooLargeNeverCommits(job, actions[..|actions| - 1]);
      TooLargeStep(job, Run(job, actions[..|actions| - 1]), actions[|actions| - 1]);
    }
  }

  ghost predicate Commits(job: Job, actions: seq<Action>) {
    Run(job, actions).main == Returned(true) && forall i :: 0 <= i < |job.plan| ==> !Lost(Run(job, actions), i)
  }

  /** A download can succeed with no failure lost if and only if every peer's stream completes its segment and the size is
      a file offset. */
  lemma SuccessReachableIff(job: Job)
    requires job.Valid()
    ensures (exists actions :: Commits(job, actions)) <==> AllComplete(job) && job.size <= 0x7fff_ffff_ffff_ffff
  {
    hide Run, Deliver, Next, Partitions;
    if actions :| Commits(job, actions) {
      if job.size > OFF_MAX {
        TooLargeNeverCommits(job, actions);
      }
      forall i | 0 <= i < |job.plan|
        ensures Deliver(job.inputs[i], job.plan[i], 0).complete
      {
        CommittedFileIsDelivered(job, actions, i);
      }
    }
    if AllComplete(job) && job.size <= OFF_MAX {
      StartUndisturbed(job);
      var more := CanStillComplete(job, []);
      assert Commits(job, [] + more);
    }
  }

  lemma StartUndisturbed(job: Job)
    ensures Undisturbed(Run(job, []))
  {
  }

  /** With peers that all hold one content and whose answers complete their segments, no ERROR reply taken for data, every
      run that nothing has disturbed can be continued to put exactly that content under the final name. */
  lemma HonestPeersDeliver(job: Job, content: seq<byte>, sends: seq<Transmission>, actions: seq<Action>) returns (more: seq<Action>)
    requires job.Valid() && |content| == job.size && job.size <= OFF_MAX
    requires AllServe(job, seq(|job.plan|, i => content), sends) && AllComplete(job)
    requires forall i :: 0 <= i < |job.plan| ==> !sends[i].Corrupts(content, job.plan[i])
    requires Undisturbed(Run(job, actions))
    ensures Run(job, actions + more).main == Returned(true) && Run(job, actions + more).final == Some(content)
  {
    hide Run, AllComplete, Deliver, Next, Partitions, Transmission.Corrupts, Transmission.Taken, Transmission.Stream, Transmission.Fits;
    more := CanStillComplete(job, actions);
    CommittedFileIsSource(job, content, sends, actions + more);
  }

  // --- Such peers exist ---

  /** Reads of a range in full chunks, the last one shorter. */
  ghost function FullCuts(n: nat): seq<nat> {
    if n == 0 then [] else if n <= CHUNK_SIZE then [n] else [CHUNK_SIZE] + FullCuts(n - CHUNK_SIZE)
  }

  lemma {:induction false} FullCutsAdd(n: nat)
    ensures Cuts(FullCuts(n), n) && Sum(FullCuts(n)) == n
  {
    if n > CHUNK_SIZE {
      FullCutsAdd(n - CHUNK_SIZE);
      assert FullCuts(n)[1..] == FullCuts(n - CHUNK_SIZE);
    } else if n > 0 {
      assert FullCuts(n)[1..] == [];
    }
  }

  /** What a peer that holds the content and has no failures sends for a range. */
  ghost function Whole(r: Chunks.Request): Transmission
    requires r.Valid()
  {
    Transmission(FullCuts(r.Length()), 0, 0, 0, [0, 0, 0, 0])
  }

  lemma WholeServes(content: seq<byte>, r: Chunks.Request)
    requires r.Valid() && |content| == r.size
    ensures Whole(r).Fits(content, r) && !Whole(r).Corrupts(content, r)
    ensures Deliver(Whole(r).Stream(content, r), r, 0).complete
  {
    hide Deliver, Transmission.Stream, Transmission.Taken;
    FullCutsAdd(r.Length());
    SafeCuts(content, r, Whole(r));
    SliceUnlessCorrupted(content, r, Whole(r));
  }

  // The job of peers[i] holding contents[i], with no failures, for a planned download.
  ghost function WholeInputs(plan: seq<Chunks.Request>, contents: seq<seq<byte>>): (inputs: seq<seq<byte>>)
    requires |contents| == |plan|
    requires forall i :: 0 <= i < |plan| ==> plan[i].Valid() && |contents[i]| == plan[i].size
    ensures |inputs| == |plan|
  {
    seq(|plan|, i requires 0 <= i < |plan| => (WholeServes(contents[i], plan[i]); Whole(plan[i]).Stream(contents[i], plan[i])))
  }

  ghost function WholeSends(plan: seq<Chunks.Request>): (sends: seq<Transmission>)
    requires forall i :: 0 <= i < |plan| ==> plan[i].Valid()
    ensures |sends| == |plan| && forall i :: 0 <= i < |plan| ==> sends[i] == Whole(plan[i])
  {
    seq(|plan|, i requires 0 <= i < |plan| => Whole(plan[i]))
  }

  /** Any contents, one for each segment, can be put together: a run of transfer_request commits with no failure. */
  lemma WholeJob(hash: nat, size: nat, contents: seq<seq<byte>>, before: Option<seq<byte>>) returns (job: Job, actions: seq<Action>)
    requires hash < UINT64_LIMIT && 0 < |contents| <= size <= OFF_MAX
    requires forall i :: 0 <= i < |contents| ==> |contents[i]| == size
    ensures |job.inputs| == |contents| && job.Valid() && job == PlannedJob(hash, size, job.inputs, before)
    ensures AllServe(job, contents, WholeSends(job.plan))
    ensures forall i :: 0 <= i < |contents| ==> !WholeSends(job.plan)[i].Corrupts(contents[i], job.plan[i])
    ensures Commits(job, actions)
  {
    hide Plan, Partitions, Deliver, Run, Whole, Undisturbed, Transmission.Corrupts, Transmission.Stream, Transmission.Fits;
    PlanIsPartition(hash, size, |contents|);
    var plan := Plan(hash, size, |contents|);
    assert forall i :: 0 <= i < |plan| ==> plan[i].Valid() && plan[i].size == size by {
      PlannedJobValid(hash, size, contents, before);
    }
    var inputs := WholeInputs(plan, contents);
    job := PlannedJob(hash, size, inputs, before);
    PlannedJobValid(hash, size, inputs, before);
    forall i | 0 <= i < |plan|
      ensures Whole(plan[i]).Fits(contents[i], plan[i]) && !Whole(plan[i]).Corrupts(contents[i], plan[i])
      ensures inputs[i] == Whole(plan[i]).Stream(contents[i], plan[i]) && Deliver(inputs[i], plan[i], 0).complete
    {
      WholeServes(contents[i], plan[i]);
    }
    StartUndisturbed(job);
    actions := CanStillComplete(job, []);
    assert [] + actions == actions;
    NothingLost(job, actions);
  }

  lemma NothingLost(job: Job, actions: seq<Action>)
    requires job.Valid() && Run(job, actions).main == Returned(true) && Undisturbed(Run(job, actions))
    ensures Commits(job, actions)
  {
    hide Run;
    ReachableInv(job, actions);
  }

  /** Every non-empty content of a size that is a file offset can be downloaded from any number of peers that hold it: a run
      of transfer_request puts it under the final name. */
  lemma EveryFileCanBeFetched(hash: nat, content: seq<byte>, peers: nat, before: Option<seq<byte>>)
    returns (job: Job, actions: seq<Action>)
    requires hash < UINT64_LIMIT && 0 < |content| <= OFF_MAX && peers > 0
    ensures |job.inputs| == if peers > |content| then |content| else peers
    ensures job.Valid() && job == PlannedJob(hash, |content|, job.inputs, before)
    ensures AllServe(job, seq(|job.plan|, i => content), WholeSends(job.plan))
    ensures Run(job, actions).main == Returned(true) && Run(job, actions).final == Some(content)
  {
    hide Plan, Partitions, Deliver, Run, Whole, Transmission.Corrupts, Transmission.Stream, Transmission.Fits, Transmission.Taken;
    var contents := seq(ActiveCount(|content|, peers), i => content);
    job, actions := WholeJob(hash, |content|, contents, before);
    assert contents == seq(|job.plan|, i => content);
    CommittedFileIsContent(job, contents, WholeSends(job.plan), content, actions);
  }

  /** The ERROR reply can get into a file: a peer that holds a content of one byte, not zero, and whose send fails just before
      that byte; its reply is taken for the byte, no failure is noticed, and the file committed holds a zero. */
  lemma ErrorReplyCommitted(content: seq<byte>, hash: nat) returns (job: Job, sends: seq<Transmission>, actions: seq<Action>)
    requires |content| == 1 && content[0] != 0 && hash < UINT64_LIMIT
    ensures job.Valid() && job.size == 1 && AllServe(job, [content], sends)
    ensures Commits(job, actions) && Run(job, actions).final == Some([0])
  {
    hide Plan, Partitions, Deliver, Run, Undisturbed, Transmission.Stream, Transmission.Fits, Transmission.Corrupts;
    PlanIsPartition(hash, 1, 1);
    var r := Plan(hash, 1, 1)[0];
    var t := Transmission([], 1, FRAME_HEAD, ERROR_FRAME, [0, 0, 0, 0]);
    assert r.Valid() && r.size == 1 && r.first == r.last == 0 by {
      PlannedJobValid(hash, 1, [[]], None);
    }
    ErrorTakenForData(content, r, [0, 0, 0, 0]);
    sends := [t];
    job := PlannedJob(hash, 1, [t.Stream(content, r)], None);
    PlannedJobValid(hash, 1, [t.Stream(content, r)], None);
    StartUndisturbed(job);
    actions := CanStillComplete(job, []);
    assert [] + actions == actions;
    NothingLost(job, actions);
    CommittedFileIsDelivered(job, actions, 0);
    CommitDiscipline(job, actions);
    assert Run(job, actions).file[0..1] == Run(job, actions).file;
  }
}
