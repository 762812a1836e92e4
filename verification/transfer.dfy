/** transfer_request and its segment threads as a state machine (transfer/receiver.c): the main thread and one
    worker for each segment take steps in any order, every system call may fail, and a write may be short. */
module Transfer {
  import opened Bytes
  import opened Wrappers
  import opened Framing
  import opened Chunks
  import opened Delivery
  import opened Receiver
  import opened Segments

  // A download: the planned segments, the bytes each peer would send when asked for its segment, and what the
  // destination name holds beforehand.
  datatype Job = Job(size: nat, plan: seq<Request>, inputs: seq<seq<byte>>, before: Option<seq<byte>>) {
    ghost predicate Valid() {
      && Partitions(plan, size) && |inputs| == |plan|
      && forall i :: 0 <= i < |plan| ==> plan[i].Valid() && plan[i].size == size
    }
  }

  // A worker's failure reaches the shared flag only if mark_failed gets the lock.
  datatype WorkerPc = Unstarted | Connecting | Requesting | Receiving | Writing | Finished | Failed(reported: bool)

  // `taken` is the data of the accepted frames, of which the first `stored` bytes are in the file.
  datatype Worker = Worker(pc: WorkerPc, input: seq<byte>, taken: seq<byte>, stored: nat) {
    predicate Done() {
      pc.Finished? || pc.Failed?
    }
  }

  datatype MainPc =
    | Truncating | Starting | Joining | Syncing | Closing | Renaming   // on the way to success
    | Abandoning | Unlinking                                           // clean-up
    | Returned(ok: bool)

  datatype State = State(main: MainPc, workers: seq<Worker>, started: nat, joined: nat, failed: bool,
                         file: seq<byte>, open: bool, partial: bool, final: Option<seq<byte>>, renames: nat)

  // One step of the main thread, or of worker i.  `ok` is the outcome of the system call made; `locked` tells
  // whether mark_failed, if it comes to that, gets the lock; a write that moves no byte is a failed write.
  datatype Action =
    | Truncate(ok: bool) | Start(ok: bool, locked: bool) | Join | Decide | Sync(ok: bool) | Close(ok: bool)
    | Rename(ok: bool) | Abandon | Unlink(ok: bool)
    | Connect(i: nat, ok: bool, locked: bool) | Request(i: nat, ok: bool, locked: bool)
    | Receive(i: nat, ok: bool, locked: bool) | Write(i: nat, count: nat, locked: bool)

  function Init(job: Job): State {
    State(Truncating, seq(|job.inputs|, i requires 0 <= i < |job.inputs| => Worker(Unstarted, job.inputs[i], [], 0)),
          0, 0, false, [], true, true, job.before, 0)
  }

  function Fail(w: Worker, locked: bool): Worker {
    w.(pc := Failed(locked))
  }

  /** What a worker makes of its next frame. */
  function WorkerReceive(w: Worker, r: Chunks.Request, ok: bool, locked: bool): Worker {
    if r.last + 1 - r.first == |w.taken| then w.(pc := Finished)
    else if !ok then Fail(w, locked)
    else match NextMessage(w.input, FRAME_CAPACITY)
      case Closed => Fail(w, locked)
      case Broken => Fail(w, locked)
      case Message(frame, rest) =>
        match ParseChunk(frame)
        case None => Fail(w, locked)
        case Some(c) =>
          if Accepts(c, r, |w.taken|) then w.(pc := Writing, input := rest, taken := w.taken + c.data)
          else Fail(w, locked)
  }

  /** The worker after its step. */
  function WorkerStep(w: Worker, r: Chunks.Request, a: Action): Worker {
    match a
    case Connect(_, ok, locked) =>
      if !w.pc.Connecting? then w else if ok then w.(pc := Requesting) else Fail(w, locked)
    case Request(_, ok, locked) =>
      if !w.pc.Requesting? then w else if ok then w.(pc := Receiving) else Fail(w, locked)
    case Receive(_, ok, locked) =>
      if !w.pc.Receiving? then w else WorkerReceive(w, r, ok, locked)
    case Write(_, count, locked) =>
      if !w.pc.Writing? || w.stored + count > |w.taken| then w
      else if count == 0 then Fail(w, locked)
      else w.(stored := w.stored + count, pc := if w.stored + count == |w.taken| then Receiving else Writing)
    case _ => w
  }

  /** The bytes a worker's step puts in the file, at r.first + w.stored. */
  function StepData(w: Worker, a: Action): seq<byte> {
    if a.Write? && w.pc.Writing? && w.stored + a.count <= |w.taken| then w.taken[w.stored..w.stored + a.count] else []
  }

  predicate IsWorkerAction(a: Action) {
    a.Connect? || a.Request? || a.Receive? || a.Write?
  }

  /** One step; an action that is not possible in a state leaves it as it is. */
  function Next(job: Job, s: State, a: Action): (s': State)
    ensures |s'.workers| == |s.workers| && (s.started <= |s.workers| ==> s'.started <= |s'.workers|)
  {
    if IsWorkerAction(a) then
      if a.i >= |s.workers| || a.i >= |job.plan| then s
      else
        var w := s.workers[a.i];
        var w' := WorkerStep(w, job.plan[a.i], a);
        s.(workers := s.workers[a.i := w'],
           file := Patch(s.file, job.plan[a.i].first + w.stored, StepData(w, a)),
           failed := s.failed || (w'.pc == Failed(true) && !w.Done()))
    else MainStep(job, s, a)
  }

  function MainStep(job: Job, s: State, a: Action): (s': State)
    ensures |s'.workers| == |s.workers| && (s.started <= |s.workers| ==> s'.started <= |s'.workers|)
  {
    match s.main
    case Truncating =>
      if !a.Truncate? then s
      else if a.ok && job.size <= OFF_MAX then s.(main := Starting, file := Resized(s.file, job.size))
      else s.(main := Abandoning)
    case Starting =>
      if !a.Start? then s
      else if s.started >= |s.workers| then s.(main := Joining)
      else if a.ok then
        s.(workers := s.workers[s.started := s.workers[s.started].(pc := Connecting)], started := s.started + 1)
      else s.(main := Joining, failed := s.failed || a.locked)
    case Joining =>
      if s.joined < s.started then
        if a.Join? && s.joined < |s.workers| && s.workers[s.joined].Done() then s.(joined := s.joined + 1) else s
      else if !a.Decide? then s
      else s.(main := if s.failed || s.started != |s.workers| then Abandoning else Syncing)
    case Syncing => if a.Sync? then s.(main := if a.ok then Closing else Abandoning) else s
    case Closing => if a.Close? then s.(main := if a.ok then Renaming else Unlinking, open := false) else s
    case Renaming =>
      if !a.Rename? then s
      else if a.ok then s.(main := Returned(true), final := Some(s.file), partial := false, renames := s.renames + 1)
      else s.(main := Unlinking)
    case Abandoning => if a.Abandon? then s.(main := Unlinking, open := false) else s
    case Unlinking => if a.Unlink? then s.(main := Returned(false), partial := s.partial && !a.ok) else s
    case Returned(_) => s
  }

  /** The state after a whole interleaving. */
  function Run(job: Job, actions: seq<Action>): (s: State)
    ensures |s.workers| == |job.inputs| && s.started <= |s.workers|
  {
    if actions == [] then Init(job)
    else Next(job, Run(job, actions[..|actions| - 1]), actions[|actions| - 1])
  }

  // --- What every reachable state satisfies ---

  /** What has been taken is what the peer's stream delivers, as far as the worker has got. */
  ghost predicate WorkerOk(w: Worker, r: Chunks.Request, input: seq<byte>)
    requires r.Valid()
  {
    && w.stored <= |w.taken| <= r.Length()
    && w.taken <= Deliver(input, r, 0).data
    && (w.pc.Unstarted? || w.pc.Connecting? || w.pc.Requesting? ==> w.taken == [] && w.input == input)
    && (w.pc.Receiving? || w.pc.Writing? ==>
          Deliver(input, r, 0).data == w.taken + Deliver(w.input, r, |w.taken|).data)
    && (w.pc.Writing? ==> w.stored < |w.taken|)
    && (!w.pc.Writing? && !w.pc.Failed? ==> w.stored == |w.taken|)
    && (w.pc.Finished? ==> |w.taken| == r.Length())
  }

  /** A worker's range holds the stored part of its data and otherwise the zeros of ftruncate. */
  ghost predicate RangeOk(file: seq<byte>, w: Worker, r: Chunks.Request)
    requires r.Valid() && |file| == r.size && w.stored <= |w.taken| && w.stored <= r.Length()
  {
    file[r.first..r.last + 1] == w.taken[..w.stored] + Zeros(r.Length() - w.stored)
  }

  ghost predicate WorkersOk(job: Job, s: State)
    requires job.Valid()
  {
    && |s.workers| == |job.plan|
    && (forall i :: 0 <= i < |job.plan| ==> WorkerOk(s.workers[i], job.plan[i], job.inputs[i]))
    && (forall i :: 0 <= i < |job.plan| ==> (s.workers[i].pc.Unstarted? <==> i >= s.started))
    && (forall i :: 0 <= i < |job.plan| && s.workers[i].pc == Failed(true) ==> s.failed)
  }

  ghost predicate FileOk(job: Job, s: State)
    requires job.Valid() && WorkersOk(job, s)
  {
    if s.file == [] then
      && s.started == 0
      && (s.main.Truncating? || s.main.Abandoning? || s.main.Unlinking? || s.main == Returned(false))
    else
      && |s.file| == job.size && !s.main.Truncating?
      && forall i :: 0 <= i < |job.plan| ==> RangeOk(s.file, s.workers[i], job.plan[i])
  }

  /** Where the main thread is says which workers it has waited for and what it has done to the files. */
  ghost predicate MainOk(job: Job, s: State) {
    && s.joined <= s.started <= |s.workers|
    && (forall i :: 0 <= i < s.joined ==> s.workers[i].Done())
    && (s.open <==> !(s.main.Renaming? || s.main.Unlinking? || s.main.Returned?))
    && (s.main.Truncating? ==> s.started == 0)
    && (!(s.main.Truncating? || s.main.Starting? || s.main.Joining?) ==> s.joined == s.started)
    && (s.main.Syncing? || s.main.Closing? || s.main.Renaming? || s.main == Returned(true) ==>
          s.started == |s.workers| && !s.failed)
    && (s.main == Returned(true) <==> s.renames == 1) && s.renames <= 1
    && (s.main == Returned(true) ==> s.final == Some(s.file) && !s.partial)
    && (s.main != Returned(true) ==> s.final == job.before)
    && (!s.main.Returned? ==> s.partial)
  }

  ghost predicate Inv(job: Job, s: State)
    requires job.Valid()
  {
    WorkersOk(job, s) && FileOk(job, s) && MainOk(job, s)
  }

  lemma {:induction false} WorkerStepOk(w: Worker, r: Chunks.Request, input: seq<byte>, a: Action)
    requires r.Valid() && WorkerOk(w, r, input) && IsWorkerAction(a)
    ensures WorkerOk(WorkerStep(w, r, a), r, input)
    ensures WorkerStep(w, r, a).pc.Unstarted? <==> w.pc.Unstarted?
    ensures w.Done() ==> WorkerStep(w, r, a) == w
  {
    hide NextMessage, ParseChunk;
    if a.Receive? && w.pc.Receiving? && |w.taken| < r.Length() {
      var d := Deliver(w.input, r, |w.taken|);
    }
  }

  lemma PatchedSlice(file: seq<byte>, a: nat, offset: nat, data: seq<byte>, b: nat)
    requires a <= offset && offset + |data| <= b <= |file| && data != []
    ensures Patch(file, offset, data)[a..b] == file[a..offset] + data + file[offset + |data|..b]
  {
  }

  lemma SplitSlice(file: seq<byte>, a: nat, b: nat, stored: nat, n: nat, left: seq<byte>, right: seq<byte>)
    requires a <= b <= |file| && stored <= n <= b - a && |left| == stored && file[a..b] == left + right
    ensures file[a..a + stored] == left && file[a + n..b] == right[n - stored..]
  {
    assert file[a..a + stored] == file[a..b][..stored];
    assert file[a + n..b] == file[a..b][n..];
  }

  /** A write inside a worker's range extends the stored part of that range. */
  lemma RangeOwnWrite(file: seq<byte>, w: Worker, r: Chunks.Request, count: nat)
    requires r.Valid() && |file| == r.size && w.stored + count <= |w.taken| <= r.Length() && RangeOk(file, w, r)
    requires count > 0
    ensures RangeOk(Patch(file, r.first + w.stored, w.taken[w.stored..w.stored + count]), w.(stored := w.stored + count), r)
  {
    hide Patch;
    var data := w.taken[w.stored..w.stored + count];
    var n := w.stored + count;
    PatchedSlice(file, r.first, r.first + w.stored, data, r.last + 1);
    SplitSlice(file, r.first, r.last + 1, w.stored, n, w.taken[..w.stored], Zeros(r.Length() - w.stored));
    assert Zeros(r.Length() - w.stored)[count..] == Zeros(r.Length() - n);
    assert w.taken[..w.stored] + data == w.taken[..n];
  }

  lemma PatchOutside(file: seq<byte>, offset: nat, data: seq<byte>, a: nat, b: nat)
    requires a <= b <= |file| && offset + |data| <= |file| && (offset + |data| <= a || b <= offset)
    ensures Patch(file, offset, data)[a..b] == file[a..b]
  {
    var p := Patch(file, offset, data);
    if data != [] {
      assert p == file[..offset] + data + file[offset + |data|..];
    }
    assert forall k :: a <= k < b ==> p[k] == file[k];
  }

  /** A write outside a worker's range leaves the range alone. */
  lemma RangeOtherWrite(file: seq<byte>, offset: nat, data: seq<byte>, w: Worker, r: Chunks.Request)
    requires r.Valid() && |file| == r.size && w.stored <= |w.taken| && w.stored <= r.Length() && RangeOk(file, w, r)
    requires offset + |data| <= |file| && (offset + |data| <= r.first || r.last < offset)
    ensures RangeOk(Patch(file, offset, data), w, r)
  {
    PatchOutside(file, offset, data, r.first, r.last + 1);
    hide Patch;
  }

  lemma InitInv(job: Job)
    requires job.Valid()
    ensures Inv(job, Init(job))
  {
    var s := Init(job);
    forall i | 0 <= i < |job.plan|
      ensures WorkerOk(s.workers[i], job.plan[i], job.inputs[i])
    {
      assert s.workers[i] == Worker(Unstarted, job.inputs[i], [], 0);
    }
  }

  lemma RangeOwnStep(file: seq<byte>, w: Worker, r: Chunks.Request, input: seq<byte>, a: Action)
    requires r.Valid() && |file| == r.size && WorkerOk(w, r, input) && IsWorkerAction(a) && RangeOk(file, w, r)
    ensures WorkerOk(WorkerStep(w, r, a), r, input)
    ensures RangeOk(Patch(file, r.first + w.stored, StepData(w, a)), WorkerStep(w, r, a), r)
  {
    hide NextMessage, ParseChunk, Patch, Deliver;
    WorkerStepOk(w, r, input, a);
    UnwrittenPatch(file, r.first + w.stored);
    if StepData(w, a) != [] {
      RangeOwnWrite(file, w, r, a.count);
    } else {
      assert WorkerStep(w, r, a).stored == w.stored;
      assert WorkerStep(w, r, a).taken[..w.stored] == w.taken[..w.stored];
    }
  }

  lemma StepDataFits(w: Worker, r: Chunks.Request, input: seq<byte>, a: Action)
    requires r.Valid() && WorkerOk(w, r, input) && IsWorkerAction(a)
    ensures w.stored + |StepData(w, a)| <= r.Length()
    ensures w.Done() || w.pc.Unstarted? ==> StepData(w, a) == [] && WorkerStep(w, r, a) == w
  {
  }

  lemma RangeAfterStep(job: Job, s: State, a: Action, i: nat)
    requires job.Valid() && WorkersOk(job, s) && IsWorkerAction(a) && a.i < |job.plan| && i < |job.plan|
    requires |s.file| == job.size && forall k :: 0 <= k < |job.plan| ==> RangeOk(s.file, s.workers[k], job.plan[k])
    requires WorkersOk(job, Next(job, s, a))
    ensures |Next(job, s, a).file| == job.size
    ensures RangeOk(Next(job, s, a).file, Next(job, s, a).workers[i], job.plan[i])
  {
    hide WorkerStep, Patch, Deliver, RangeOk, StepData;
    var w, r := s.workers[a.i], job.plan[a.i];
    assert WorkerOk(w, r, job.inputs[a.i]) && WorkerOk(s.workers[i], job.plan[i], job.inputs[i]);
    StepDataFits(w, r, job.inputs[a.i], a);
    if i == a.i {
      RangeOwnStep(s.file, w, r, job.inputs[i], a);
    } else {
      if i < a.i {
        RangesOrdered(job.plan, job.size, i, a.i);
      } else {
        RangesOrdered(job.plan, job.size, a.i, i);
      }
      RangeOtherWrite(s.file, r.first + w.stored, StepData(w, a), s.workers[i], job.plan[i]);
    }
  }

  lemma WorkerActionEffects(job: Job, s: State, a: Action)
    requires IsWorkerAction(a) && a.i < |s.workers| && a.i < |job.plan|
    ensures var w', s' := WorkerStep(s.workers[a.i], job.plan[a.i], a), Next(job, s, a);
      && s'.workers == s.workers[a.i := w'] && s'.started == s.started
      && (s.failed ==> s'.failed)
      && (w'.pc == Failed(true) && !s.workers[a.i].Done() ==> s'.failed)
  {
    hide WorkerStep, Patch, StepData;
  }

  lemma WorkerActionWorkers(job: Job, s: State, a: Action)
    requires job.Valid() && WorkersOk(job, s) && IsWorkerAction(a)
    ensures WorkersOk(job, Next(job, s, a))
  {
    if a.i < |job.plan| {
      var s' := Next(job, s, a);
      hide WorkerStep, Deliver, WorkerOk, Partitions, Next;
      WorkerActionEffects(job, s, a);
      WorkerStepOk(s.workers[a.i], job.plan[a.i], job.inputs[a.i], a);
      OneWorkerOk(job, s, s', a.i, WorkerStep(s.workers[a.i], job.plan[a.i], a));
    }
  }

  /** Replacing one worker by one that is as good keeps all of them right. */
  lemma OneWorkerOk(job: Job, s: State, s': State, k: nat, w': Worker)
    requires job.Valid() && WorkersOk(job, s) && k < |job.plan|
    requires s'.workers == s.workers[k := w'] && s'.started == s.started && (s.failed ==> s'.failed)
    requires WorkerOk(w', job.plan[k], job.inputs[k]) && (w'.pc.Unstarted? <==> s.workers[k].pc.Unstarted?)
    requires w'.pc == Failed(true) && !s.workers[k].Done() ==> s'.failed
    requires s.workers[k].Done() ==> w' == s.workers[k]
    ensures WorkersOk(job, s')
  {
    hide WorkerOk, Partitions;
    forall i | 0 <= i < |job.plan|
      ensures WorkerOk(s'.workers[i], job.plan[i], job.inputs[i])
      ensures s'.workers[i].pc.Unstarted? <==> i >= s'.started
      ensures s'.workers[i].pc == Failed(true) ==> s'.failed
    {
      if i != k {
        assert s'.workers[i] == s.workers[i];
      }
    }
  }

  lemma WorkerActionFile(job: Job, s: State, a: Action)
    requires job.Valid() && Inv(job, s) && IsWorkerAction(a) && WorkersOk(job, Next(job, s, a))
    ensures FileOk(job, Next(job, s, a))
  {
    if a.i < |job.plan| {
      hide WorkerStep, Patch, Deliver, RangeOk, StepData;
      var w, r := s.workers[a.i], job.plan[a.i];
      assert WorkerOk(w, r, job.inputs[a.i]);
      StepDataFits(w, r, job.inputs[a.i], a);
      UnwrittenPatch(s.file, r.first + w.stored);
      if s.file != [] {
        forall i | 0 <= i < |job.plan|
          ensures |Next(job, s, a).file| == job.size
          ensures RangeOk(Next(job, s, a).file, Next(job, s, a).workers[i], job.plan[i])
        {
          RangeAfterStep(job, s, a, i);
        }
      }
    }
  }

  lemma IdleWorkerStep(job: Job, s: State, a: Action)
    requires job.Valid() && WorkersOk(job, s) && IsWorkerAction(a) && a.i < |job.plan|
    requires s.workers[a.i].Done() || s.workers[a.i].pc.Unstarted?
    ensures Next(job, s, a) == s
  {
    var w, r := s.workers[a.i], job.plan[a.i];
    assert WorkerOk(w, r, job.inputs[a.i]);
    hide WorkerStep, Patch, Deliver, StepData, Partitions, WorkersOk, WorkerOk;
    StepDataFits(w, r, job.inputs[a.i], a);
    UnwrittenPatch(s.file, r.first + w.stored);
    assert s.workers[a.i := w] == s.workers;
  }

  lemma ActiveWorkerStep(job: Job, s: State, a: Action)
    requires MainOk(job, s) && IsWorkerAction(a) && a.i < |s.workers| && a.i < |job.plan|
    requires !s.workers[a.i].Done() && (s.main.Starting? || s.main.Joining?)
    ensures MainOk(job, Next(job, s, a))
  {
    hide WorkerStep, Patch, StepData;
  }

  lemma ActiveMeansUnfinished(job: Job, s: State, i: nat)
    requires job.Valid() && WorkersOk(job, s) && MainOk(job, s) && i < |job.plan|
    requires !s.workers[i].Done() && !s.workers[i].pc.Unstarted?
    ensures s.main.Starting? || s.main.Joining?
  {
    hide WorkerOk, Partitions;
    assert i < s.started;
  }

  lemma WorkerActionMain(job: Job, s: State, a: Action)
    requires job.Valid() && Inv(job, s) && IsWorkerAction(a)
    ensures MainOk(job, Next(job, s, a))
  {
    if a.i < |job.plan| {
      hide Next, MainOk, FileOk, Partitions;
      var w := s.workers[a.i];
      if w.Done() || w.pc.Unstarted? {
        IdleWorkerStep(job, s, a);
      } else {
        ActiveMeansUnfinished(job, s, a.i);
        ActiveWorkerStep(job, s, a);
      }
    }
  }

  /** What a step of the main thread can change besides its own position. */
  lemma MainStepEffects(job: Job, s: State, a: Action)
    ensures var s' := MainStep(job, s, a);
      && (s.failed ==> s'.failed)
      && (|| (s'.workers == s.workers && s'.started == s.started)
          || (s.main.Starting? && s.started < |s.workers| && s'.started == s.started + 1
              && s'.workers == s.workers[s.started := s.workers[s.started].(pc := Connecting)]))
      && (|| (s.main.Truncating? && s'.main.Starting? && s'.file == Resized(s.file, job.size))
          || (s'.file == s.file && (s'.main == s.main || !s'.main.Truncating?)))
  {
  }

  lemma MainActionWorkers(job: Job, s: State, a: Action)
    requires job.Valid() && WorkersOk(job, s)
    ensures WorkersOk(job, MainStep(job, s, a))
  {
    hide Partitions, Deliver, MainStep;
    MainStepEffects(job, s, a);
    var s' := MainStep(job, s, a);
    forall i | 0 <= i < |job.plan|
      ensures WorkerOk(s'.workers[i], job.plan[i], job.inputs[i])
      ensures s'.workers[i].pc.Unstarted? <==> i >= s'.started
      ensures s'.workers[i].pc == Failed(true) ==> s'.failed
    {
      assert WorkerOk(s.workers[i], job.plan[i], job.inputs[i]);
    }
  }

  lemma MainActionFile(job: Job, s: State, a: Action)
    requires job.Valid() && Inv(job, s) && WorkersOk(job, MainStep(job, s, a))
    ensures FileOk(job, MainStep(job, s, a))
  {
    var s' := MainStep(job, s, a);
    if s.file == [] {
      hide Deliver, Resized, WorkerOk, RangeOk, Partitions;
      assert job.size > 0 by {
        SizeIsPositive(job);
      }
      TruncatedIsZeros(job, s);
    } else {
      hide Deliver, Resized, MainStep;
      MainStepEffects(job, s, a);
      forall i | 0 <= i < |job.plan|
        ensures RangeOk(s'.file, s'.workers[i], job.plan[i])
      {
        assert RangeOk(s.file, s.workers[i], job.plan[i]);
      }
    }
  }

  lemma SizeIsPositive(job: Job)
    requires job.Valid()
    ensures job.size > 0
  {
  }

  lemma MainActionMain(job: Job, s: State, a: Action)
    requires job.Valid() && Inv(job, s)
    ensures MainOk(job, MainStep(job, s, a))
  {
    hide Deliver, Resized, WorkerOk, FileOk, Partitions;
  }

  lemma TruncatedIsZeros(job: Job, s: State)
    requires job.Valid() && WorkersOk(job, s) && s.file == [] && s.started == 0
    ensures |Resized(s.file, job.size)| == job.size
    ensures forall i :: 0 <= i < |job.plan| ==> RangeOk(Resized(s.file, job.size), s.workers[i], job.plan[i])
  {
    hide Deliver;
    forall i | 0 <= i < |job.plan|
      ensures RangeOk(Resized(s.file, job.size), s.workers[i], job.plan[i])
    {
      assert s.workers[i].pc.Unstarted? && s.workers[i].stored == 0;
    }
  }

  /** Every reachable state keeps the invariant, whatever the interleaving, the failures and the peers. */
  lemma {:induction false} ReachableInv(job: Job, actions: seq<Action>)
    requires job.Valid()
    ensures Inv(job, Run(job, actions))
  {
    if actions == [] {
      InitInv(job);
    } else {
      var s, a := Run(job, actions[..|actions| - 1]), actions[|actions| - 1];
      ReachableInv(job, actions[..|actions| - 1]);
      if IsWorkerAction(a) {
        WorkerActionWorkers(job, s, a);
        WorkerActionFile(job, s, a);
        WorkerActionMain(job, s, a);
      } else {
        MainActionWorkers(job, s, a);
        MainActionFile(job, s, a);
        MainActionMain(job, s, a);
      }
    }
  }
}
