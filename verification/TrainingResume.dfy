/** Deterministic stop and resume: a run resumed from any of its checkpoints is the run that never stopped. */
module TrainingResume {
  import opened Wrappers
  import opened Bytes
  import opened Runs

  type Rng = seq<byte>
  type Tensors = seq<byte>
  type Batch = seq<byte>

  /** The two host generators; the device generator is kept apart because replay must not touch it. */
  datatype Host = Host(numpy: Rng, python: Rng)

  datatype Optimizer = Optimizer(step: nat, moments: Tensors)

  /** The foreign parts, taken as deterministic parameters: the epoch permutation, reading one example,
      and one update, which is `None` when a loss, a gradient or an updated tensor is not finite. */
  datatype Trainer = Trainer(
    batchCount: nat,
    permute: Rng -> (seq<nat>, Rng),
    fetch: (nat, Host, Rng) -> (Batch, Host, Rng),
    update: (Tensors, Tensors, Batch, Host, Rng) -> Option<(Tensors, Tensors, Host, Rng)>)

  ghost predicate Permutes(trainer: Trainer) {
    trainer.batchCount > 0 && forall rng :: |trainer.permute(rng).0| == trainer.batchCount
  }

  /** The batch generator between two calls: the indices of this epoch it has still to yield.  It draws
      the next permutation only when asked for a batch it no longer has. */
  datatype Feed = Feed(pending: seq<nat>, host: Host, mlx: Rng)

  function Refill(trainer: Trainer, feed: Feed): (filled: Feed)
    requires Permutes(trainer)
    ensures filled.pending != []
  {
    if feed.pending == [] then
      var (order, numpy) := trainer.permute(feed.host.numpy);
      Feed(order, feed.host.(numpy := numpy), feed.mlx)
    else feed
  }

  function Next(trainer: Trainer, feed: Feed): (Batch, Feed)
    requires Permutes(trainer)
  {
    var filled := Refill(trainer, feed);
    var (batch, host, mlx) := trainer.fetch(filled.pending[0], filled.host, filled.mlx);
    (batch, Feed(filled.pending[1..], host, mlx))
  }

  datatype State = State(
    globalStep: nat, epoch: nat, cursor: nat,
    model: Tensors, optimizer: Optimizer,
    feed: Feed, epochStart: Host)

  /** One turn of the training loop. */
  function Turn(trainer: Trainer, s: State): Option<State>
    requires Permutes(trainer)
  {
    var (batch, feed) := Next(trainer, s.feed);
    match trainer.update(s.model, s.optimizer.moments, batch, feed.host, feed.mlx)
    case None => None
    case Some((model, moments, host, mlx)) =>
      var fed := Feed(feed.pending, host, mlx);
      var optimizer := Optimizer(s.optimizer.step + 1, moments);
      if s.cursor + 1 == trainer.batchCount
      then Some(State(s.globalStep + 1, s.epoch + 1, 0, model, optimizer, fed, host))
      else Some(State(s.globalStep + 1, s.epoch, s.cursor + 1, model, optimizer, fed, s.epochStart))
  }

  ghost function TurnOf(trainer: Trainer): State -> Option<State>
    requires Permutes(trainer)
  {
    (s: State) => if Permutes(trainer) then Turn(trainer, s) else None
  }

  ghost function Trajectory(trainer: Trainer, start: State, n: nat): Option<State>
    requires Permutes(trainer)
  {
    Steps(TurnOf(trainer), start, n)
  }

  // ---------------------------------------------------------------- checkpoints

  datatype Sampler = Sampler(epoch: nat, cursor: nat, batchCount: nat, epochStart: Host)

  /** What is saved.  The generator itself is not: only the counters and the epoch-start generators. */
  datatype Checkpoint = Checkpoint(
    globalStep: nat, model: Tensors, optimizer: Optimizer, host: Host, mlx: Rng, sampler: Sampler)

  function Save(trainer: Trainer, s: State): Checkpoint {
    Checkpoint(s.globalStep, s.model, s.optimizer, s.feed.host, s.feed.mlx,
               Sampler(s.epoch, s.cursor, trainer.batchCount, s.epochStart))
  }

  /** After which steps a run to `iters` saves: every `every` steps, and at its target. */
  function Schedule(iters: nat, every: nat): nat -> bool
    requires every > 0
  {
    globalStep => globalStep % every == 0 || globalStep == iters
  }

  ghost function SaveOf(trainer: Trainer, due: nat -> bool): State -> seq<Checkpoint>
  {
    (s: State) => if due(s.globalStep) then [Save(trainer, s)] else []
  }

  /** The checkpoints of the first `n` turns, as far as the run gets. */
  ghost function Saved(trainer: Trainer, start: State, due: nat -> bool, n: nat): seq<Checkpoint>
    requires Permutes(trainer)
  {
    Emitted(TurnOf(trainer), SaveOf(trainer, due), start, n)
  }

  lemma OneTurn(trainer: Trainer, start: State, due: nat -> bool, n: nat, s: State)
    requires Permutes(trainer) && Trajectory(trainer, start, n) == Some(s)
    ensures Trajectory(trainer, start, n + 1) == Turn(trainer, s)
    ensures Turn(trainer, s).Some? ==>
              Turn(trainer, s).value.globalStep == s.globalStep + 1
              && Saved(trainer, start, due, n + 1)
                 == Saved(trainer, start, due, n)
                  + (if due(s.globalStep + 1) then [Save(trainer, Turn(trainer, s).value)] else [])
    ensures Turn(trainer, s).None? ==> Saved(trainer, start, due, n + 1) == Saved(trainer, start, due, n)
  {
  }

  function Fresh(model: Tensors, moments: Tensors, host: Host, mlx: Rng): State {
    State(0, 0, 0, model, Optimizer(0, moments), Feed([], host, mlx), host)
  }

  /** The training loop. */
  method Train(trainer: Trainer, start: State, iters: nat, due: nat -> bool)
    returns (final: Option<State>, saved: seq<Checkpoint>)
    requires Permutes(trainer) && start.globalStep <= iters
    ensures final == Trajectory(trainer, start, iters - start.globalStep)
    ensures saved == Saved(trainer, start, due, iters - start.globalStep)
    ensures OnTrack(trainer, start) ==>
              ComputesFold(trainer, start, due, iters - start.globalStep, final, saved)
  {
    RunComputesFold(trainer, start, due, iters - start.globalStep);
    var s := start;
    saved := [];
    ghost var n := 0;
    while s.globalStep < iters
      invariant s.globalStep == start.globalStep + n <= iters
      invariant Trajectory(trainer, start, n) == Some(s)
      invariant saved == Saved(trainer, start, due, n)
      decreases iters - s.globalStep
    {
      OneTurn(trainer, start, due, n, s);
      var next := Turn(trainer, s);
      if next.None? {
        RunStopped(trainer, start, due, n + 1, iters - start.globalStep);
        return None, saved;
      }
      s, n := next.value, n + 1;
      if due(s.globalStep) {
        saved := saved + [Save(trainer, s)];
      }
    }
    return Some(s), saved;
  }

  lemma RunStopped(trainer: Trainer, start: State, due: nat -> bool, n: nat, m: nat)
    requires Permutes(trainer) && n <= m && Trajectory(trainer, start, n).None?
    ensures Trajectory(trainer, start, m).None? && Saved(trainer, start, due, m) == Saved(trainer, start, due, n)
  {
    StoppedStays(TurnOf(trainer), SaveOf(trainer, due), start, n, m);
  }

  // ---------------------------------------------------------------- resuming

  datatype ResumeError = BadCounters | StepMismatch | ReplayMismatch

  predicate CountersValid(trainer: Trainer, c: Checkpoint) {
    && c.sampler.batchCount == trainer.batchCount
    && c.sampler.cursor < c.sampler.batchCount
    && c.globalStep == c.sampler.epoch * c.sampler.batchCount + c.sampler.cursor
  }

  /** The generator after `n` batches that nobody trains on. */
  ghost function Replayed(trainer: Trainer, start: Feed, n: nat): Feed
    requires Permutes(trainer)
  {
    if n == 0 then start else Next(trainer, Replayed(trainer, start, n - 1)).1
  }

  ghost function ResumeOf(trainer: Trainer, c: Checkpoint, iters: nat): Result<State, ResumeError>
    requires Permutes(trainer)
  {
    if c.globalStep > iters || !CountersValid(trainer, c) then Err(BadCounters)
    else if c.optimizer.step != c.globalStep then Err(StepMismatch)
    else
      var feed := Replayed(trainer, Feed([], c.sampler.epochStart, c.mlx), c.sampler.cursor);
      if feed.host != c.host || feed.mlx != c.mlx then Err(ReplayMismatch)
      else Ok(State(c.globalStep, c.sampler.epoch, c.sampler.cursor, c.model, c.optimizer, feed, c.sampler.epochStart))
  }

  /** Restore a checkpoint: put the epoch-start generators back, draw `cursor` batches, compare. */
  method Resume(trainer: Trainer, c: Checkpoint, iters: nat) returns (result: Result<State, ResumeError>)
    requires Permutes(trainer)
    ensures result == ResumeOf(trainer, c, iters)
  {
    if c.globalStep > iters || !CountersValid(trainer, c) {
      return Err(BadCounters);
    }
    if c.optimizer.step != c.globalStep {
      return Err(StepMismatch);
    }
    var feed := Feed([], c.sampler.epochStart, c.mlx);
    for drawn := 0 to c.sampler.cursor
      invariant feed == Replayed(trainer, Feed([], c.sampler.epochStart, c.mlx), drawn)
    {
      feed := Next(trainer, feed).1;
    }
    if feed.host != c.host || feed.mlx != c.mlx {
      return Err(ReplayMismatch);
    }
    return Ok(State(c.globalStep, c.sampler.epoch, c.sampler.cursor, c.model, c.optimizer, feed, c.sampler.epochStart));
  }

  // ---------------------------------------------------------------- the invariant of a run

  ghost function Remaining(trainer: Trainer, epochStart: Host, cursor: nat): seq<nat>
    requires Permutes(trainer) && cursor < trainer.batchCount
  {
    if cursor == 0 then [] else trainer.permute(epochStart.numpy).0[cursor..]
  }

  /** The counters agree, and the generator holds what the epoch-start generators say it must. */
  ghost predicate OnTrack(trainer: Trainer, s: State)
    requires Permutes(trainer)
  {
    && s.cursor < trainer.batchCount
    && s.globalStep == s.epoch * trainer.batchCount + s.cursor
    && s.optimizer.step == s.globalStep
    && s.feed.pending == Remaining(trainer, s.epochStart, s.cursor)
    && (s.cursor == 0 ==> s.epochStart == s.feed.host)
  }

  lemma NextPending(trainer: Trainer, feed: Feed, epochStart: Host, cursor: nat)
    requires Permutes(trainer) && cursor < trainer.batchCount
    requires feed.pending == Remaining(trainer, epochStart, cursor)
    requires cursor == 0 ==> epochStart == feed.host
    ensures Next(trainer, feed).1.pending == trainer.permute(epochStart.numpy).0[cursor + 1..]
  {
  }

  lemma TurnKeepsTrack(trainer: Trainer, s: State)
    requires Permutes(trainer) && OnTrack(trainer, s) && Turn(trainer, s).Some?
    ensures OnTrack(trainer, Turn(trainer, s).value)
    ensures Turn(trainer, s).value.globalStep == s.globalStep + 1
  {
    NextPending(trainer, s.feed, s.epochStart, s.cursor);
    assert (s.epoch + 1) * trainer.batchCount == s.epoch * trainer.batchCount + trainer.batchCount;
  }

  lemma {:induction false} RunKeepsTrack(trainer: Trainer, start: State, n: nat)
    requires Permutes(trainer) && OnTrack(trainer, start) && Trajectory(trainer, start, n).Some?
    ensures OnTrack(trainer, Trajectory(trainer, start, n).value)
    ensures Trajectory(trainer, start, n).value.globalStep == start.globalStep + n
  {
    if n > 0 {
      RunKeepsTrack(trainer, start, n - 1);
      TurnKeepsTrack(trainer, Trajectory(trainer, start, n - 1).value);
    }
  }

  lemma FreshOnTrack(trainer: Trainer, model: Tensors, moments: Tensors, host: Host, mlx: Rng)
    requires Permutes(trainer)
    ensures OnTrack(trainer, Fresh(model, moments, host, mlx))
  {
  }

  /** Whatever reading an example does to the generators, replay holds the same pending indices. */
  lemma {:induction false} ReplayPending(trainer: Trainer, epochStart: Host, mlx: Rng, cursor: nat)
    requires Permutes(trainer) && cursor < trainer.batchCount
    ensures Replayed(trainer, Feed([], epochStart, mlx), cursor).pending == Remaining(trainer, epochStart, cursor)
  {
    if cursor > 0 {
      ReplayPending(trainer, epochStart, mlx, cursor - 1);
      NextPending(trainer, Replayed(trainer, Feed([], epochStart, mlx), cursor - 1), epochStart, cursor - 1);
    }
  }

  /** Drawing the batches of the current epoch again, without training, ends in the saved generators. */
  ghost predicate Replays(trainer: Trainer, s: State)
    requires Permutes(trainer)
  {
    var feed := Replayed(trainer, Feed([], s.epochStart, s.feed.mlx), s.cursor);
    feed.host == s.feed.host && feed.mlx == s.feed.mlx
  }

  /** A checkpoint of a run resumes exactly when its epoch replays, and it then resumes as the very
      state that was saved: batch order, counters, tensors and all generators. */
  lemma ResumeIff(trainer: Trainer, s: State, iters: nat)
    requires Permutes(trainer) && OnTrack(trainer, s) && s.globalStep <= iters
    ensures ResumeOf(trainer, Save(trainer, s), iters)
         == if Replays(trainer, s) then Ok(s) else Err(ReplayMismatch)
  {
    ReplayPending(trainer, s.epochStart, s.feed.mlx, s.cursor);
  }

  /** On an epoch boundary there is nothing to replay, so resuming always succeeds. */
  lemma BoundaryReplays(trainer: Trainer, s: State)
    requires Permutes(trainer) && OnTrack(trainer, s) && s.cursor == 0
    ensures Replays(trainer, s)
  {
  }

  // ---------------------------------------------------------------- resumed runs

  lemma ResumedState(trainer: Trainer, start: State, iters: nat, k: nat)
    requires Permutes(trainer) && OnTrack(trainer, start) && start.globalStep + k <= iters
    requires Trajectory(trainer, start, k).Some?
    requires ResumeOf(trainer, Save(trainer, Trajectory(trainer, start, k).value), iters).Ok?
    ensures ResumeOf(trainer, Save(trainer, Trajectory(trainer, start, k).value), iters).value
         == Trajectory(trainer, start, k).value
    ensures Trajectory(trainer, start, k).value.globalStep == start.globalStep + k
  {
    RunKeepsTrack(trainer, start, k);
    ResumeIff(trainer, Trajectory(trainer, start, k).value, iters);
  }

  /** A run is its first k steps and then the run from where they end. */
  lemma SplitRun(trainer: Trainer, start: State, s: State, due: nat -> bool, k: nat, rest: nat, all: nat)
    requires Permutes(trainer) && all == k + rest && Trajectory(trainer, start, k) == Some(s)
    ensures Trajectory(trainer, s, rest) == Trajectory(trainer, start, all)
    ensures Saved(trainer, start, due, all) == Saved(trainer, start, due, k) + Saved(trainer, s, due, rest)
  {
    StepsSplit(TurnOf(trainer), start, s, k, rest);
    EmittedSplit(TurnOf(trainer), SaveOf(trainer, due), start, s, k, rest);
  }

  /** Stop at any step, resume, and run to any target: the final state (or the failure) and every later
      checkpoint are those of the run that was never stopped, whenever the resume is let through. */
  lemma ResumedRunIsUninterrupted(trainer: Trainer, start: State, iters: nat, due: nat -> bool, k: nat)
    requires Permutes(trainer) && OnTrack(trainer, start)
    requires start.globalStep + k <= iters && Trajectory(trainer, start, k).Some?
    requires ResumeOf(trainer, Save(trainer, Trajectory(trainer, start, k).value), iters).Ok?
    ensures var resumed := ResumeOf(trainer, Save(trainer, Trajectory(trainer, start, k).value), iters).value;
      var rest := iters - resumed.globalStep;
      && k + rest == iters - start.globalStep
      && Trajectory(trainer, resumed, rest) == Trajectory(trainer, start, k + rest)
      && Saved(trainer, start, due, k + rest)
         == Saved(trainer, start, due, k) + Saved(trainer, resumed, due, rest)
  {
    ResumedState(trainer, start, iters, k);
    var s := Trajectory(trainer, start, k).value;
    SplitRun(trainer, start, s, due, k, iters - s.globalStep, iters - start.globalStep);
  }

  // ---------------------------------------------------------------- when resuming never fails

  /** An update leaves the host generators alone, and reading an example leaves the device generator
      alone and does not look at it. */
  ghost predicate Quiet(trainer: Trainer) {
    && (forall model, moments, batch, host, mlx ::
          trainer.update(model, moments, batch, host, mlx).Some? ==>
            trainer.update(model, moments, batch, host, mlx).value.2 == host)
    && (forall i, host, mlx :: trainer.fetch(i, host, mlx).2 == mlx)
    && (forall i, host, mlx, other :: trainer.fetch(i, host, mlx).1 == trainer.fetch(i, host, other).1)
  }

  ghost function ReplayedHost(trainer: Trainer, epochStart: Host, mlx: Rng, n: nat): Host
    requires Permutes(trainer)
  {
    Replayed(trainer, Feed([], epochStart, mlx), n).host
  }

  lemma {:induction false} ReplayIgnoresDevice(trainer: Trainer, epochStart: Host, mlx: Rng, other: Rng, n: nat)
    requires Permutes(trainer) && Quiet(trainer) && n <= trainer.batchCount
    ensures Replayed(trainer, Feed([], epochStart, mlx), n).mlx == mlx
    ensures ReplayedHost(trainer, epochStart, mlx, n) == ReplayedHost(trainer, epochStart, other, n)
  {
    if n > 0 {
      ReplayIgnoresDevice(trainer, epochStart, mlx, other, n - 1);
      ReplayPending(trainer, epochStart, mlx, n - 1);
      ReplayPending(trainer, epochStart, other, n - 1);
    }
  }

  lemma QuietTurnReplays(trainer: Trainer, s: State)
    requires Permutes(trainer) && Quiet(trainer) && OnTrack(trainer, s) && Turn(trainer, s).Some?
    requires Replays(trainer, s)
    ensures Replays(trainer, Turn(trainer, s).value)
  {
    var t := Turn(trainer, s).value;
    if t.cursor > 0 {
      ReplayPending(trainer, s.epochStart, s.feed.mlx, s.cursor);
      assert Replayed(trainer, Feed([], s.epochStart, s.feed.mlx), s.cursor) == s.feed;
      assert ReplayedHost(trainer, s.epochStart, s.feed.mlx, t.cursor) == t.feed.host;
      ReplayIgnoresDevice(trainer, t.epochStart, t.feed.mlx, s.feed.mlx, t.cursor);
    }
  }

  /** With quiet training every checkpoint of every run resumes. */
  lemma {:induction false} QuietRunsResume(trainer: Trainer, start: State, n: nat, iters: nat)
    requires Permutes(trainer) && Quiet(trainer) && OnTrack(trainer, start) && Replays(trainer, start)
    requires Trajectory(trainer, start, n).Some? && start.globalStep + n <= iters
    ensures Replays(trainer, Trajectory(trainer, start, n).value)
    ensures ResumeOf(trainer, Save(trainer, Trajectory(trainer, start, n).value), iters).Ok?
  {
    RunKeepsTrack(trainer, start, n);
    if n > 0 {
      QuietRunsResume(trainer, start, n - 1, iters);
      RunKeepsTrack(trainer, start, n - 1);
      QuietTurnReplays(trainer, Trajectory(trainer, start, n - 1).value);
    }
    ResumeIff(trainer, Trajectory(trainer, start, n).value, iters);
  }

  /** With quiet training, a checkpoint of a fresh run resumes, and to the state it was taken from. */
  lemma FreshRunResumes(trainer: Trainer, start: State, iters: nat, k: nat)
    requires Permutes(trainer) && Quiet(trainer) && k <= iters
    requires start == Fresh(start.model, start.optimizer.moments, start.feed.host, start.feed.mlx)
    requires Trajectory(trainer, start, k).Some?
    ensures OnTrack(trainer, start)
    ensures ResumeOf(trainer, Save(trainer, Trajectory(trainer, start, k).value), iters)
         == Ok(Trajectory(trainer, start, k).value)
  {
    FreshOnTrack(trainer, start.model, start.optimizer.moments, start.feed.host, start.feed.mlx);
    BoundaryReplays(trainer, start);
    QuietRunsResume(trainer, start, k, iters);
    ResumedState(trainer, start, iters, k);
  }

  /** With quiet training, a fresh run stopped after any step and resumed to its target ends as the run
      that was never stopped and saves the same later checkpoints, on the schedule of the source. */
  lemma StopAndResume(trainer: Trainer, model: Tensors, moments: Tensors, host: Host, mlx: Rng,
                      iters: nat, every: nat, k: nat)
    requires Permutes(trainer) && Quiet(trainer) && every > 0 && k <= iters
    requires Trajectory(trainer, Fresh(model, moments, host, mlx), k).Some?
    ensures var start := Fresh(model, moments, host, mlx);
      var resumed := ResumeOf(trainer, Save(trainer, Trajectory(trainer, start, k).value), iters);
      && resumed.Ok?
      && Trajectory(trainer, resumed.value, iters - k) == Trajectory(trainer, start, iters)
      && Saved(trainer, start, Schedule(iters, every), iters)
         == Saved(trainer, start, Schedule(iters, every), k)
          + Saved(trainer, resumed.value, Schedule(iters, every), iters - k)
  {
    var start := Fresh(model, moments, host, mlx);
    FreshRunResumes(trainer, start, iters, k);
    SplitRun(trainer, start, Trajectory(trainer, start, k).value, Schedule(iters, every), k, iters - k, iters);
  }

  /** An update that draws from a host generator is caught: the first checkpoint inside an epoch is
      refused instead of resuming differently. */
  lemma NoisyTrainingIsRefused(trainer: Trainer, s: State, iters: nat)
    requires Permutes(trainer) && trainer.batchCount > 1 && OnTrack(trainer, s) && s.cursor == 0
    requires Turn(trainer, s).Some? && s.globalStep < iters
    requires forall i, host, mlx, other :: trainer.fetch(i, host, mlx).1 == trainer.fetch(i, host, other).1
    requires Turn(trainer, s).value.feed.host != Next(trainer, s.feed).1.host
    ensures ResumeOf(trainer, Save(trainer, Turn(trainer, s).value), iters) == Err(ReplayMismatch)
  {
    var t := Turn(trainer, s).value;
    TurnKeepsTrack(trainer, s);
    ResumeIff(trainer, t, iters);
    assert Replayed(trainer, Feed([], t.epochStart, t.feed.mlx), 0) == Feed([], s.feed.host, t.feed.mlx);
    assert Replayed(trainer, Feed([], t.epochStart, t.feed.mlx), 1)
        == Next(trainer, Feed([], s.feed.host, t.feed.mlx)).1;
  }

  // ---------------------------------------------------------------- what a run computes

  /** Training without an iterator, a loop or counters: the number of steps so far, the tensors, the
      generators, and the host generators with which the current epoch began. */
  datatype Flow = Flow(g: nat, model: Tensors, moments: Tensors, host: Host, mlx: Rng, epochStart: Host)

  /** Step `g` trains on example number `g % batchCount` of its epoch's permutation.  The permutation is the
      one of the NumPy generator at the start of the epoch, and is drawn then and only then. */
  ghost function NextFlow(trainer: Trainer, flow: Flow): Option<Flow>
    requires Permutes(trainer)
  {
    var j := flow.g % trainer.batchCount;
    var epochStart := if j == 0 then flow.host else flow.epochStart;
    var (order, drawn) := trainer.permute(epochStart.numpy);
    var before := if j == 0 then Host(drawn, flow.host.python) else flow.host;
    var (batch, host, mlx) := trainer.fetch(order[j], before, flow.mlx);
    match trainer.update(flow.model, flow.moments, batch, host, mlx)
    case None => None
    case Some((model, moments, after, device)) => Some(Flow(flow.g + 1, model, moments, after, device, epochStart))
  }

  ghost function NextFlowOf(trainer: Trainer): Flow -> Option<Flow>
    requires Permutes(trainer)
  {
    (flow: Flow) => if Permutes(trainer) then NextFlow(trainer, flow) else None
  }

  /** The fold of the next `n` updates. */
  ghost function FlowAfter(trainer: Trainer, flow: Flow, n: nat): Option<Flow>
    requires Permutes(trainer)
  {
    Steps(NextFlowOf(trainer), flow, n)
  }

  ghost function FlowOf(s: State): Flow {
    Flow(s.globalStep, s.model, s.optimizer.moments, s.feed.host, s.feed.mlx, s.epochStart)
  }

  /** The whole state of the loop at that point. */
  ghost function StateOf(trainer: Trainer, flow: Flow): State
    requires Permutes(trainer)
  {
    var j := flow.g % trainer.batchCount;
    var epochStart := if j == 0 then flow.host else flow.epochStart;
    State(flow.g, flow.g / trainer.batchCount, j, flow.model, Optimizer(flow.g, flow.moments),
          Feed(if j == 0 then [] else trainer.permute(epochStart.numpy).0[j..], flow.host, flow.mlx), epochStart)
  }

  ghost function StateAfter(trainer: Trainer, flow: Flow, n: nat): Option<State>
    requires Permutes(trainer)
  {
    match FlowAfter(trainer, flow, n)
    case None => None
    case Some(later) => Some(StateOf(trainer, later))
  }

  ghost function CheckpointOf(trainer: Trainer, flow: Flow): Checkpoint
    requires Permutes(trainer)
  {
    var j := flow.g % trainer.batchCount;
    Checkpoint(flow.g, flow.model, Optimizer(flow.g, flow.moments), flow.host, flow.mlx,
               Sampler(flow.g / trainer.batchCount, j, trainer.batchCount, if j == 0 then flow.host else flow.epochStart))
  }

  ghost function CheckpointsOf(trainer: Trainer, due: nat -> bool): Flow -> seq<Checkpoint>
    requires Permutes(trainer)
  {
    (flow: Flow) => if Permutes(trainer) && due(flow.g) then [CheckpointOf(trainer, flow)] else []
  }

  /** The checkpoints of the steps that are due, as far as the updates go. */
  ghost function SavedAfter(trainer: Trainer, flow: Flow, due: nat -> bool, n: nat): seq<Checkpoint>
    requires Permutes(trainer)
  {
    Emitted(NextFlowOf(trainer), CheckpointsOf(trainer, due), flow, n)
  }

  lemma Counted(count: nat, epoch: nat, cursor: nat)
    requires cursor < count
    ensures (epoch * count + cursor) / count == epoch && (epoch * count + cursor) % count == cursor
  {
    var quotient, rest := (epoch * count + cursor) / count, (epoch * count + cursor) % count;
    assert quotient * count + rest == epoch * count + cursor;
    SameQuotient(count, epoch, cursor, quotient, rest);
  }

  lemma SameQuotient(count: nat, epoch: nat, cursor: nat, quotient: nat, rest: nat)
    requires cursor < count && rest < count && quotient * count + rest == epoch * count + cursor
    ensures quotient == epoch
  {
    var more: int, size: int := quotient - epoch, count;
    assert more * size == cursor - rest;
    assert more >= 1 ==> more * size >= size;
    assert more <= -1 ==> more * size <= -size;
  }

  ghost predicate Follows(trainer: Trainer, s: State, flow: Flow) {
    Permutes(trainer) && OnTrack(trainer, s) && s == StateOf(trainer, flow)
  }

  lemma TrackedFollows(trainer: Trainer, s: State)
    requires Permutes(trainer) && OnTrack(trainer, s)
    ensures Follows(trainer, s, FlowOf(s))
  {
    Counted(trainer.batchCount, s.epoch, s.cursor);
  }

  /** One turn of the loop is one step of the fold. */
  lemma TurnIsNextFlow(trainer: Trainer, s: State, flow: Flow)
    requires Follows(trainer, s, flow)
    ensures Turn(trainer, s).Some? == NextFlow(trainer, flow).Some?
    ensures Turn(trainer, s).Some? ==> Follows(trainer, Turn(trainer, s).value, NextFlow(trainer, flow).value)
  {
    if Turn(trainer, s).Some? {
      TurnKeepsTrack(trainer, s);
      Counted(trainer.batchCount, Turn(trainer, s).value.epoch, Turn(trainer, s).value.cursor);
    }
  }

  lemma TurnsFollow(trainer: Trainer)
    requires Permutes(trainer)
    ensures forall s, flow :: Follows(trainer, s, flow) ==>
              TurnOf(trainer)(s).Some? == NextFlowOf(trainer)(flow).Some?
    ensures forall s, flow :: Follows(trainer, s, flow) && TurnOf(trainer)(s).Some? ==>
              Follows(trainer, TurnOf(trainer)(s).value, NextFlowOf(trainer)(flow).value)
  {
    forall s, flow | Follows(trainer, s, flow)
      ensures TurnOf(trainer)(s).Some? == NextFlowOf(trainer)(flow).Some?
      ensures TurnOf(trainer)(s).Some? ==> Follows(trainer, TurnOf(trainer)(s).value, NextFlowOf(trainer)(flow).value)
    {
      TurnIsNextFlow(trainer, s, flow);
    }
  }

  /** A run computes exactly this fold: from any state on track, the state after `n` turns, all counters,
      tensors, generators and pending examples included, is that of the folded updates, and the run ends
      early exactly where they do. */
  lemma RunIsFold(trainer: Trainer, start: State, n: nat)
    requires Permutes(trainer) && OnTrack(trainer, start)
    ensures Trajectory(trainer, start, n) == StateAfter(trainer, FlowOf(start), n)
  {
    TrackedFollows(trainer, start);
    TurnsFollow(trainer);
    var related := (s, flow) => Follows(trainer, s, flow);
    StepsSimulate(related, TurnOf(trainer), NextFlowOf(trainer), start, FlowOf(start), n);
  }

  lemma FollowsSaves(trainer: Trainer, s: State, flow: Flow)
    requires Follows(trainer, s, flow)
    ensures s.globalStep == flow.g && Save(trainer, s) == CheckpointOf(trainer, flow)
  {
  }

  ghost predicate FoldedAs(trainer: Trainer, flow: Flow, due: nat -> bool, n: nat, final: Option<State>,
                           saved: seq<Checkpoint>)
    requires Permutes(trainer)
  {
    final == StateAfter(trainer, flow, n) && saved == SavedAfter(trainer, flow, due, n)
  }

  /** What a training run from `start` has computed and saved after `n` steps, by the folded updates.  The
      quantifier keeps the fold out of the reasoning about the loop. */
  ghost predicate ComputesFold(trainer: Trainer, start: State, due: nat -> bool, n: nat, final: Option<State>,
                               saved: seq<Checkpoint>)
    requires Permutes(trainer)
  {
    forall flow :: flow == FlowOf(start) ==> FoldedAs(trainer, flow, due, n, final, saved)
  }

  lemma RunComputesFold(trainer: Trainer, start: State, due: nat -> bool, n: nat)
    requires Permutes(trainer)
    ensures OnTrack(trainer, start) ==>
              ComputesFold(trainer, start, due, n, Trajectory(trainer, start, n), Saved(trainer, start, due, n))
  {
    if OnTrack(trainer, start) {
      RunIsFold(trainer, start, n);
      CheckpointsAreFold(trainer, start, due, n);
    }
  }

  /** Every checkpoint holds what the fold has computed by then. */
  lemma CheckpointsAreFold(trainer: Trainer, start: State, due: nat -> bool, n: nat)
    requires Permutes(trainer) && OnTrack(trainer, start)
    ensures Saved(trainer, start, due, n) == SavedAfter(trainer, FlowOf(start), due, n)
  {
    TrackedFollows(trainer, start);
    TurnsFollow(trainer);
    forall s, flow | Follows(trainer, s, flow)
      ensures SaveOf(trainer, due)(s) == CheckpointsOf(trainer, due)(flow)
    {
      FollowsSaves(trainer, s, flow);
    }
    var related := (s, flow) => Follows(trainer, s, flow);
    EmittedSimulate(related, TurnOf(trainer), NextFlowOf(trainer), SaveOf(trainer, due), CheckpointsOf(trainer, due),
                    start, FlowOf(start), n);
  }

  /** A checkpoint is let through exactly when it is the checkpoint of a state on track that is not past the
      target and whose epoch replays; and it then gives that state. */
  lemma ResumeAcceptsIff(trainer: Trainer, c: Checkpoint, iters: nat, s: State)
    requires Permutes(trainer)
    ensures ResumeOf(trainer, c, iters) == Ok(s)
       <==> OnTrack(trainer, s) && s.globalStep <= iters && Replays(trainer, s) && c == Save(trainer, s)
  {
    if OnTrack(trainer, s) && s.globalStep <= iters {
      ResumeIff(trainer, s, iters);
    }
    if ResumeOf(trainer, c, iters) == Ok(s) {
      ReplayPending(trainer, c.sampler.epochStart, c.mlx, c.sampler.cursor);
    }
  }

  /** The counters of a checkpoint fit the trainer and the target. */
  predicate Counts(trainer: Trainer, c: Checkpoint, iters: nat) {
    && c.sampler.batchCount == trainer.batchCount && c.sampler.cursor < trainer.batchCount
    && c.globalStep == c.sampler.epoch * trainer.batchCount + c.sampler.cursor && c.globalStep <= iters
  }

  /** Each refusal and its one reason: counters that do not fit, an optimizer at another step, generators that
      the batches drawn again do not end in. */
  lemma ResumeRefusalIff(trainer: Trainer, c: Checkpoint, iters: nat)
    requires Permutes(trainer)
    ensures var result, feed := ResumeOf(trainer, c, iters),
                                Replayed(trainer, Feed([], c.sampler.epochStart, c.mlx), c.sampler.cursor);
      && (result == Err(BadCounters) <==> !Counts(trainer, c, iters))
      && (result == Err(StepMismatch) <==> Counts(trainer, c, iters) && c.optimizer.step != c.globalStep)
      && (result == Err(ReplayMismatch) <==>
            Counts(trainer, c, iters) && c.optimizer.step == c.globalStep && !(feed.host == c.host && feed.mlx == c.mlx))
  {
  }

  // ---------------------------------------------------------------- the schedule

  ghost predicate Holds(saved: seq<Checkpoint>, step: nat) {
    exists i :: 0 <= i < |saved| && saved[i].globalStep == step
  }

  lemma HoldsAppend(saved: seq<Checkpoint>, more: seq<Checkpoint>, step: nat)
    ensures Holds(saved + more, step) <==> Holds(saved, step) || Holds(more, step)
  {
    if i :| 0 <= i < |saved| && saved[i].globalStep == step {
      assert (saved + more)[i].globalStep == step;
    }
    if i :| 0 <= i < |more| && more[i].globalStep == step {
      assert (saved + more)[|saved| + i].globalStep == step;
    }
  }

  lemma {:induction false} FlowCounts(trainer: Trainer, flow: Flow, n: nat)
    requires Permutes(trainer) && FlowAfter(trainer, flow, n).Some?
    ensures FlowAfter(trainer, flow, n).value.g == flow.g + n
  {
    if n > 0 {
      FlowCounts(trainer, flow, n - 1);
    }
  }

  lemma LastCheckpoint(trainer: Trainer, flow: Flow, due: nat -> bool, step: nat)
    requires Permutes(trainer)
    ensures Holds(CheckpointsOf(trainer, due)(flow), step) <==> due(flow.g) && step == flow.g
  {
    if due(flow.g) {
      assert CheckpointsOf(trainer, due)(flow)[0].globalStep == flow.g;
    }
  }

  /** A run to `iters` saves exactly the steps it reaches that are multiples of `every` or the target. */
  lemma {:induction false} ScheduledSteps(trainer: Trainer, flow: Flow, iters: nat, every: nat, n: nat, step: nat)
    requires Permutes(trainer) && every > 0 && flow.g + n <= iters
    ensures Holds(SavedAfter(trainer, flow, Schedule(iters, every), n), step)
       <==> flow.g < step <= flow.g + n && FlowAfter(trainer, flow, step - flow.g).Some?
            && (step % every == 0 || step == iters)
  {
    if n > 0 {
      ScheduledSteps(trainer, flow, iters, every, n - 1, step);
      var last := match FlowAfter(trainer, flow, n)
                  case None => []
                  case Some(later) => CheckpointsOf(trainer, Schedule(iters, every))(later);
      HoldsAppend(SavedAfter(trainer, flow, Schedule(iters, every), n - 1), last, step);
      if FlowAfter(trainer, flow, n).Some? {
        FlowCounts(trainer, flow, n);
        LastCheckpoint(trainer, FlowAfter(trainer, flow, n).value, Schedule(iters, every), step);
      }
    }
  }
}
