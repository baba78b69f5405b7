/**
 The durable autopilot job: a small record of counters that must summarise an
 unbounded history of cycles.
 */
module Autopilot {
  import opened Text

  const SECOND := 1_000_000_000
  const RUN_UNTIL := "completed_or_cancelled"

  datatype JobState = Running | Paused | Blocked | Completed | Cancelled

  datatype Job = Job(
    id: string,
    workspace: string,
    state: JobState,
    progressRevision: nat,
    checkpointRevision: nat,
    cycleCount: nat,
    noProgress: nat,
    failures: nat,
    lastFailure: string,
    lastDigest: string,
    repeatedActions: nat,
    safeCode: string,
    createdAt: int,
    updatedAt: int,
    lastProgressAt: int,
    nextCycleAt: Option<int>)
  {
    /** The driver may start a cycle: the job is running and its backoff has elapsed. */
    predicate Due(now: int) {
      state.Running? && (nextCycleAt.Some? ==> nextCycleAt.value <= now)
    }
  }

  datatype Cycle = Cycle(
    progress: bool,
    checkpointChanged: bool,
    failureCode: string,
    completed: bool,
    providerBlocked: bool,
    digest: string)

  datatype Outcome<+T> = Ok(value: T) | Err

  /** Outcomes of reading and of replacing the state file. */
  datatype Disk = Disk(readable: bool, writable: bool)

  /** What the model provider answers, and what executing its action reports back. */
  datatype Answer = ProviderBlocked | ProviderFailed | Action(valid: bool, digest: string)

  datatype Execution = Execution(
    failed: bool,
    progress: bool,
    checkpointChanged: bool,
    completed: bool,
    failureCode: string,
    providerBlocked: bool,
    observation: string,
    observationWritable: bool)

  datatype Surroundings = Surroundings(
    stop: bool,
    configured: bool,
    authorised: bool,
    withinStorage: bool,
    contractReadable: bool,
    answer: Answer,
    execution: Execution)

  /** The first guard of `CycleRunner.Run` that fails, by the code the job is stopped with. */
  function Obstacle(world: Surroundings): (r: Option<string>)
    ensures r.Some? ==> SafeCode(r.value)
    ensures r.None? <==>
            !world.stop && world.configured && world.authorised && world.withinStorage && world.contractReadable
  {
    if world.stop then Some("stop")
    else if !world.configured then Some("configuration_invalid")
    else if !world.authorised then Some("authorization_lost")
    else if !world.withinStorage then Some("storage_limit")
    else if !world.contractReadable then Some("contract_invalid")
    else None
  }

  datatype Request =
    | StartJob(workspace: string, id: string, now: int)
    | PauseJob(now: int)
    | ResumeJob(now: int)
    | CancelJob(now: int)
    | DriveJob(world: Surroundings, now: int)
    | RecordJob(result: Cycle, now: int)
    | StopJob(code: string, now: int)
    | KeepObservation(text: string)
  {
    /** Job ids, action digests and codes are generated, not supplied, so their format is given. */
    predicate WellFormed() {
      match this
      case StartJob(_, id, _) => |id| == 35 && id[..3] == "aj_"
      case DriveJob(world, _) => world.answer.Action? ==> Digest(world.answer.digest)
      case StopJob(code, _) => SafeCode(code)
      case _ => true
    }
  }

  // ---------------------------------------------------------------- formats

  predicate LowerHex(c: char) { '0' <= c <= '9' || 'a' <= c <= 'f' }

  predicate WorkspaceId(s: string) {
    |s| == 35 && s[..3] == "ws_" && forall i | 3 <= i < 35 :: LowerHex(s[i])
  }

  predicate SafeCode(s: string) {
    && 3 <= |s| <= 64
    && 'a' <= s[0] <= 'z'
    && forall i | 1 <= i < |s| :: 'a' <= s[i] <= 'z' || '0' <= s[i] <= '9' || s[i] == '_'
  }

  predicate Digest(s: string) {
    |s| == 64 && forall i | 0 <= i < 64 :: LowerHex(s[i])
  }

  /** `validState`: what both loading and writing demand of a job. */
  predicate ValidJob(j: Job) {
    && |j.id| == 35 && j.id[..3] == "aj_"
    && WorkspaceId(j.workspace)
    && (j.safeCode == "" || SafeCode(j.safeCode))
    && (j.lastFailure == "" || SafeCode(j.lastFailure))
    && (j.lastDigest == "" || Digest(j.lastDigest))
  }

  /** What `RecordCycle` accepts: it looks at the digest only when the cycle neither completed nor was blocked. */
  predicate Recordable(c: Cycle) {
    && (c.failureCode == "" || SafeCode(c.failureCode))
    && (c.completed || c.providerBlocked || c.digest == "" || Digest(c.digest))
  }

  // --------------------------------------------------- histories of cycles

  /** How many elements at the end of `h` satisfy `p` without a break. */
  function TrailingRun<T>(h: seq<T>, p: T -> bool): (n: nat) {
    if h == [] || !p(h[|h| - 1]) then 0 else 1 + TrailingRun(h[..|h| - 1], p)
  }

  /** A run of `k` fits at the end of the history exactly when all of the last `k` elements satisfy `p`. */
  lemma {:induction false} TrailingRunIsLongest<T>(h: seq<T>, p: T -> bool, k: nat)
    ensures k <= TrailingRun(h, p) <==> k <= |h| && forall i | |h| - k <= i < |h| :: p(h[i])
  {
    if h != [] && k > 0 {
      var rest := h[..|h| - 1];
      TrailingRunIsLongest(rest, p, k - 1);
      assert forall i | 0 <= i < |rest| :: rest[i] == h[i];
    }
  }

  function NoProgressRun(h: seq<Cycle>): nat {
    TrailingRun(h, (c: Cycle) => !c.progress)
  }

  /** Length of the trailing run of cycles that failed with the same code as the last one. */
  function FailureRun(h: seq<Cycle>): nat {
    if h == [] || h[|h| - 1].failureCode == "" then 0
    else var code := h[|h| - 1].failureCode; TrailingRun(h, (c: Cycle) => c.failureCode == code)
  }

  /** How often the last action has been repeated without progress or a new checkpoint, counting itself. */
  function ActionRun(h: seq<Cycle>): nat {
    if h == [] || h[|h| - 1].digest == "" then 0
    else
      var last, before := h[|h| - 1], h[..|h| - 1];
      1 + if before != [] && before[|before| - 1].digest == last.digest && !last.progress && !last.checkpointChanged
          then ActionRun(before) else 0
  }

  /**
   A run of `k` fits exactly when the last `k` cycles took the same action, and all of them but the
   first made neither progress nor a checkpoint.
   */
  lemma {:induction false} ActionRunIsLongest(h: seq<Cycle>, k: nat)
    ensures k <= ActionRun(h) <==>
            && k <= |h|
            && (forall i | |h| - k <= i < |h| :: h[i].digest == h[|h| - 1].digest != "")
            && (forall i | |h| - k < i < |h| :: !h[i].progress && !h[i].checkpointChanged)
  {
    if k > 1 && |h| > 1 {
      var before, n := h[..|h| - 1], |h| - 1;
      ActionRunIsLongest(before, k - 1);
      assert forall i | 0 <= i < n :: before[i] == h[i];
      assert n - (k - 1) == |h| - k;
    }
  }

  /** Why a history of cycles must stop the job, if it must. */
  function BlockReason(h: seq<Cycle>): Option<string> {
    if ActionRun(h) >= 2 then Some("repeated_action")
    else if FailureRun(h) >= 3 then Some("repeated_failure")
    else if NoProgressRun(h) >= 2 then Some("no_progress")
    else None
  }

  lemma {:induction false} SameRun<T>(h: seq<T>, p: T -> bool, q: T -> bool)
    requires forall i | 0 <= i < |h| :: p(h[i]) == q(h[i])
    ensures TrailingRun(h, p) == TrailingRun(h, q)
  {
    if h != [] {
      SameRun(h[..|h| - 1], p, q);
    }
  }

  /** How each run changes when one more cycle is appended. */
  lemma AppendCycle(h: seq<Cycle>, c: Cycle)
    ensures NoProgressRun(h + [c]) == if c.progress then 0 else NoProgressRun(h) + 1
    ensures FailureRun(h + [c]) ==
            if c.failureCode == "" then 0
            else if h != [] && h[|h| - 1].failureCode == c.failureCode then FailureRun(h) + 1
            else 1
    ensures ActionRun(h + [c]) ==
            if c.digest == "" then 0
            else if h != [] && h[|h| - 1].digest == c.digest && !c.progress && !c.checkpointChanged
            then ActionRun(h) + 1
            else 1
  {
    var g := h + [c];
    assert g[..|g| - 1] == h;
    var p := (x: Cycle) => x.failureCode == c.failureCode;
    if c.failureCode != "" {
      var code := g[|g| - 1].failureCode;
      SameRun(g, p, (x: Cycle) => x.failureCode == code);
      if h != [] && h[|h| - 1].failureCode == c.failureCode {
        var code' := h[|h| - 1].failureCode;
        SameRun(h, p, (x: Cycle) => x.failureCode == code');
      }
    }
  }

  // -------------------------------------------------------- what a job means

  /** The stored counters are the run lengths of the cycles since the job last started or resumed. */
  ghost predicate Summarises(j: Job, h: seq<Cycle>) {
    && j.noProgress == NoProgressRun(h)
    && j.failures == FailureRun(h)
    && j.repeatedActions == ActionRun(h)
    && j.lastFailure == (if h == [] then "" else h[|h| - 1].failureCode)
    && j.lastDigest == (if h == [] then "" else h[|h| - 1].digest)
  }

  /** Everything that holds of a job in every reachable state, `h` being its cycles since the last start or resume. */
  ghost predicate JobInvariant(j: Job, h: seq<Cycle>, resumes: nat) {
    && ValidJob(j)
    && Summarises(j, h)
    && (j.state.Running? ==> BlockReason(h).None? && j.safeCode == "")
    && j.cycleCount <= 2 * j.progressRevision + 2 * resumes + (if j.state.Running? then j.noProgress else 2)
    && (j.nextCycleAt.Some? ==>
          && j.state.Running?
          && j.lastFailure != ""
          && j.nextCycleAt.value in {j.updatedAt + 2 * SECOND, j.updatedAt + 4 * SECOND})
  }

  /** How long the job can run without making progress. */
  lemma ProgressBound(j: Job, h: seq<Cycle>, resumes: nat)
    requires JobInvariant(j, h, resumes)
    ensures j.cycleCount <= 2 * j.progressRevision + 2 * (1 + resumes)
    ensures j.state.Running? ==> j.noProgress <= 1 && j.failures <= 2 && j.repeatedActions <= 1
  {
  }

  // ------------------------------------------------------------ retry backoff

  function Pow2(n: nat): (r: nat)
    ensures r >= 1
  {
    if n == 0 then 1 else 2 * Pow2(n - 1)
  }

  lemma {:induction false} Pow2Monotone(a: nat, b: nat)
    requires a <= b
    ensures Pow2(a) <= Pow2(b)
    decreases b - a
  {
    if a < b { Pow2Monotone(a + 1, b); }
  }

  /** Seconds to wait after `failures` failures in a row: doubling, and never more than two minutes. */
  function BackoffSeconds(failures: int): nat {
    if failures < 1 then 0 else if Pow2(failures) > 120 then 120 else Pow2(failures)
  }

  lemma BackoffMonotone(a: int, b: int)
    requires a <= b
    ensures BackoffSeconds(a) <= BackoffSeconds(b) <= 120
  {
    if a >= 1 { Pow2Monotone(a, b); }
  }

  /** The delay doubles from two seconds on, and stays at two minutes from the seventh failure on. */
  lemma {:induction false} BackoffDoubles(failures: int)
    ensures failures <= 0 ==> BackoffSeconds(failures) == 0
    ensures failures == 1 ==> BackoffSeconds(failures) == 2
    ensures 1 < failures <= 6 ==> BackoffSeconds(failures) == 2 * BackoffSeconds(failures - 1)
    ensures failures > 6 ==> BackoffSeconds(failures) == 120
  {
    assert Pow2(1) == 2 && Pow2(2) == 4 && Pow2(3) == 8 && Pow2(4) == 16;
    assert Pow2(5) == 32 && Pow2(6) == 64 && Pow2(7) == 128;
    if failures > 6 { Pow2Monotone(7, failures); }
  }

  method RetryBackoff(failures: int) returns (delay: int)
    ensures delay == BackoffSeconds(failures) * SECOND
  {
    if failures < 1 {
      return 0;
    }
    delay := 2 * SECOND;
    var i := 1;
    while i < failures && delay < 120 * SECOND
      invariant 1 <= i <= failures
      invariant delay == Pow2(i) * SECOND
    {
      delay := delay * 2;
      i := i + 1;
    }
    Pow2Monotone(i, failures);
    if delay > 120 * SECOND {
      return 120 * SECOND;
    }
  }

  // ------------------------------------------- the counters of one more cycle

  /** A job after one more ordinary cycle `c` on the history `h`, every counter read off the extended history. */
  ghost function Counted(before: Job, h: seq<Cycle>, c: Cycle): Job {
    before.(
      progressRevision := before.progressRevision + (if c.progress then 1 else 0),
      checkpointRevision := before.checkpointRevision + (if c.checkpointChanged then 1 else 0),
      lastProgressAt := if c.progress then before.updatedAt else before.lastProgressAt,
      noProgress := NoProgressRun(h + [c]),
      failures := FailureRun(h + [c]),
      repeatedActions := ActionRun(h + [c]),
      lastFailure := c.failureCode,
      lastDigest := c.digest,
      nextCycleAt := if c.failureCode == "" then None
                     else Some(before.updatedAt + BackoffSeconds(FailureRun(h + [c])) * SECOND))
  }

  /** A job stopped for the reason its history gives, if it gives one. */
  ghost function StoppedBy(job: Job, h: seq<Cycle>): Job {
    match BlockReason(h)
    case None => job
    case Some(reason) => job.(state := Blocked, safeCode := reason, nextCycleAt := None)
  }

  /** A running job after one more cycle `c`, `h` being its cycles before. */
  ghost function AfterCycle(job: Job, h: seq<Cycle>, c: Cycle, now: int): Job {
    var next := job.(cycleCount := job.cycleCount + 1, updatedAt := now);
    if c.completed then next.(state := Completed, safeCode := "completed", nextCycleAt := None)
    else if c.providerBlocked then next.(state := Blocked, safeCode := "provider_blocked", nextCycleAt := None)
    else StoppedBy(Counted(next, h, c), h + [c])
  }

  /**
   The state of a running job after an ordinary cycle, read off the cycles since it last started or
   resumed: blocked if the last two took one action and the later one made neither progress nor a
   checkpoint, or the last three failed with one code, or the last two made no progress; the code
   goes to the first of these. Otherwise it runs, after a failure not before its backoff.
   */
  ghost predicate Stops(job: Job, h: seq<Cycle>)
    requires h != []
  {
    && (job.state.Blocked? <==> RepeatedAction(h) || RepeatedFailure(h) || NoProgress(h))
    && (job.state.Running? <==> !(RepeatedAction(h) || RepeatedFailure(h) || NoProgress(h)))
    && job.safeCode == (if RepeatedAction(h) then "repeated_action"
                        else if RepeatedFailure(h) then "repeated_failure"
                        else if NoProgress(h) then "no_progress" else "")
    && job.nextCycleAt == (
         if job.state.Blocked? || h[|h| - 1].failureCode == "" then None
         else if |h| >= 2 && h[|h| - 2].failureCode == h[|h| - 1].failureCode
         then Some(job.updatedAt + 4 * SECOND) else Some(job.updatedAt + 2 * SECOND))
  }

  ghost predicate RepeatedAction(h: seq<Cycle>) {
    && |h| >= 2 && h[|h| - 1].digest != "" && h[|h| - 2].digest == h[|h| - 1].digest
    && !h[|h| - 1].progress && !h[|h| - 1].checkpointChanged
  }

  ghost predicate RepeatedFailure(h: seq<Cycle>) {
    && |h| >= 3 && h[|h| - 1].failureCode != ""
    && h[|h| - 2].failureCode == h[|h| - 1].failureCode && h[|h| - 3].failureCode == h[|h| - 1].failureCode
  }

  ghost predicate NoProgress(h: seq<Cycle>) {
    |h| >= 2 && !h[|h| - 1].progress && !h[|h| - 2].progress
  }

  /** The runs that stop a job, read off its last cycles. */
  lemma RunsMean(h: seq<Cycle>)
    ensures ActionRun(h) >= 2 <==> RepeatedAction(h)
    ensures FailureRun(h) >= 3 <==> RepeatedFailure(h)
    ensures NoProgressRun(h) >= 2 <==> NoProgress(h)
    ensures h != [] && h[|h| - 1].failureCode != "" ==>
              && FailureRun(h) >= 1
              && (FailureRun(h) >= 2 <==> |h| >= 2 && h[|h| - 2].failureCode == h[|h| - 1].failureCode)
  {
    ActionsMean(h);
    FailuresMean(h);
    ProgressMeans(h);
    hide ActionRun, FailureRun, NoProgressRun, RepeatedAction, RepeatedFailure, NoProgress;
  }

  lemma ActionsMean(h: seq<Cycle>)
    ensures ActionRun(h) >= 2 <==> RepeatedAction(h)
  {
    ActionRunIsLongest(h, 2);
    hide ActionRun;
  }

  lemma ProgressMeans(h: seq<Cycle>)
    ensures NoProgressRun(h) >= 2 <==> NoProgress(h)
  {
    TrailingRunIsLongest(h, (c: Cycle) => !c.progress, 2);
    hide TrailingRun;
  }

  lemma FailuresMean(h: seq<Cycle>)
    ensures FailureRun(h) >= 3 <==> RepeatedFailure(h)
    ensures h != [] && h[|h| - 1].failureCode != "" ==>
              && FailureRun(h) >= 1
              && (FailureRun(h) >= 2 <==> |h| >= 2 && h[|h| - 2].failureCode == h[|h| - 1].failureCode)
  {
    if h != [] && h[|h| - 1].failureCode != "" {
      var code := h[|h| - 1].failureCode;
      var p := (c: Cycle) => c.failureCode == code;
      TrailingRunIsLongest(h, p, 1);
      TrailingRunIsLongest(h, p, 2);
      TrailingRunIsLongest(h, p, 3);
      hide TrailingRun;
      assert FailureRun(h) == TrailingRun(h, p);
    }
  }

  lemma StoppingCycle(job: Job, h: seq<Cycle>, c: Cycle, now: int)
    ensures var after := AfterCycle(job, h, c, now);
            && (c.completed ==> after.state.Completed? && after.safeCode == "completed" && after.nextCycleAt.None?)
            && (!c.completed && c.providerBlocked ==>
                  after.state.Blocked? && after.safeCode == "provider_blocked" && after.nextCycleAt.None?)
  {
    hide StoppedBy, Counted;
  }

  /** What a cycle does to the rest of the job. */
  lemma CycleKeeps(job: Job, h: seq<Cycle>, c: Cycle, now: int)
    ensures var after := AfterCycle(job, h, c, now);
            var ordinary := !c.completed && !c.providerBlocked;
            && after.cycleCount == job.cycleCount + 1 && after.updatedAt == now
            && after.id == job.id && after.workspace == job.workspace && after.createdAt == job.createdAt
            && after.progressRevision == job.progressRevision + (if ordinary && c.progress then 1 else 0)
            && after.checkpointRevision == job.checkpointRevision + (if ordinary && c.checkpointChanged then 1 else 0)
            && after.lastProgressAt == (if ordinary && c.progress then now else job.lastProgressAt)
  {
    hide BlockReason, ActionRun, FailureRun, NoProgressRun, BackoffSeconds;
  }

  /** An ordinary cycle leaves a running job stopped as its last cycles say. */
  lemma OrdinaryCycleStops(job: Job, h: seq<Cycle>, c: Cycle, now: int)
    requires job.state.Running? && job.safeCode == "" && !c.completed && !c.providerBlocked
    ensures Stops(AfterCycle(job, h, c, now), h + [c])
  {
    var next := job.(cycleCount := job.cycleCount + 1, updatedAt := now);
    var g := h + [c];
    assert g[|g| - 1] == c;
    var counted := Counted(next, h, c);
    hide Stops, StoppedBy, ActionRun, FailureRun, NoProgressRun, BackoffSeconds;
    StoppedStops(counted, g);
  }

  lemma StoppedStops(job: Job, h: seq<Cycle>)
    requires h != [] && job.state.Running? && job.safeCode == ""
    requires job.nextCycleAt == if h[|h| - 1].failureCode == "" then None
                                else Some(job.updatedAt + BackoffSeconds(FailureRun(h)) * SECOND)
    ensures Stops(StoppedBy(job, h), h)
  {
    RunsMean(h);
    FirstDelays(FailureRun(h));
    hide ActionRun, FailureRun, NoProgressRun, BackoffSeconds, RepeatedAction, RepeatedFailure, NoProgress;
  }

  lemma FirstDelays(failures: nat)
    ensures failures == 1 ==> BackoffSeconds(failures) == 2
    ensures failures == 2 ==> BackoffSeconds(failures) == 4
  {
    assert Pow2(0) == 1 && Pow2(1) == 2 && Pow2(2) == 4;
  }

  /** The cycles that count for the stop checks: not one that completes the job, or that the provider blocks. */
  ghost function Extended(h: seq<Cycle>, c: Cycle): seq<Cycle> {
    if c.completed || c.providerBlocked then h else h + [c]
  }

  /** What an executed action has achieved: an observation equal to the one before is not progress. */
  function Achieved(done: Execution, digest: string, seen: string): Cycle {
    if done.providerBlocked then Cycle(false, false, "", false, true, digest)
    else Cycle(
      done.progress && (done.observation == "" || TrimSpace(done.observation) != TrimSpace(seen)),
      done.checkpointChanged, if done.failed && done.failureCode == "" then "action_failed" else done.failureCode,
      done.completed, false, digest)
  }

  /** The cycle that one pass of the driver records once every guard has passed. */
  function Driven(world: Surroundings, seen: string): Cycle {
    match world.answer
    case ProviderBlocked => Cycle(false, false, "", false, true, "")
    case ProviderFailed => Cycle(false, false, "provider_transient", false, false, "")
    case Action(valid, digest) =>
      if valid then Achieved(world.execution, digest, seen)
      else Cycle(false, false, "provider_invalid", false, false, "")
  }

  /** There is an observation to keep. */
  predicate Observed(done: Execution) {
    !done.providerBlocked && done.observation != ""
  }

  /** What is recorded of an executed action. */
  lemma AchievedMeans(done: Execution, digest: string, seen: string)
    ensures var c := Achieved(done, digest, seen);
            && c.digest == digest && c.providerBlocked == done.providerBlocked
            && (c.progress <==>
                && !done.providerBlocked && done.progress
                && (done.observation == "" || TrimSpace(done.observation) != TrimSpace(seen)))
            && (c.completed <==> !done.providerBlocked && done.completed)
            && (c.checkpointChanged <==> !done.providerBlocked && done.checkpointChanged)
            && (done.providerBlocked ==> c.failureCode == "")
            && (!done.providerBlocked ==>
                  && (done.failureCode != "" ==> c.failureCode == done.failureCode)
                  && (done.failureCode == "" ==> c.failureCode == if done.failed then "action_failed" else ""))
  {
    hide TrimSpace;
  }

  /** The observation to keep cannot be written. */
  predicate Unwritable(done: Execution) {
    Observed(done) && !done.observationWritable
  }

  /** Every guard passes and the provider answers with a valid action. */
  predicate Executes(world: Surroundings) {
    Obstacle(world).None? && world.answer.Action? && world.answer.valid
  }

  /** Why one pass of the driver stops the job instead of counting a cycle, if it does. */
  function Halt(world: Surroundings): (r: Option<string>)
    ensures r.Some? ==> SafeCode(r.value)
  {
    if Obstacle(world).Some? then Obstacle(world)
    else if Executes(world) && Unwritable(world.execution) then Some("observation_invalid")
    else None
  }

  /** Why a pass of the driver stops the job, in the order in which it looks. */
  lemma HaltMeans(world: Surroundings)
    ensures world.stop ==> Halt(world) == Some("stop")
    ensures !world.stop && !world.configured ==> Halt(world) == Some("configuration_invalid")
    ensures !world.stop && world.configured && !world.authorised ==> Halt(world) == Some("authorization_lost")
    ensures !world.stop && world.configured && world.authorised && !world.withinStorage ==>
              Halt(world) == Some("storage_limit")
    ensures !world.stop && world.configured && world.authorised && world.withinStorage && !world.contractReadable ==>
              Halt(world) == Some("contract_invalid")
    ensures !world.stop && world.configured && world.authorised && world.withinStorage && world.contractReadable ==>
              Halt(world) ==
              if world.answer.Action? && world.answer.valid && !world.execution.providerBlocked
                 && world.execution.observation != "" && !world.execution.observationWritable
              then Some("observation_invalid") else None
  {
  }

  /** What cycle a pass of the driver records: of a failing or invalid answer, or of the action it executed. */
  lemma DrivenMeans(world: Surroundings, seen: string)
    ensures var c := Driven(world, seen);
            && (world.answer.ProviderBlocked? ==> c.providerBlocked && !c.completed)
            && (world.answer.ProviderFailed? ==> c == Cycle(false, false, "provider_transient", false, false, ""))
            && (world.answer.Action? && !world.answer.valid ==>
                  c == Cycle(false, false, "provider_invalid", false, false, ""))
            && (world.answer.Action? && world.answer.valid ==>
                  c == Achieved(world.execution, world.answer.digest, seen))
  {
    hide Achieved;
  }

  function Stopped(job: Job, next: JobState, code: string, now: int): Job {
    job.(state := next, safeCode := code, nextCycleAt := None, updatedAt := now)
  }

  /** The counters need only the job: its record stands for the history. */
  lemma CountedFromJob(before: Job, h: seq<Cycle>, c: Cycle)
    requires Summarises(before, h)
    ensures Summarises(Counted(before, h, c), h + [c])
    ensures var failures := if c.failureCode == "" then 0
                            else if before.lastFailure == c.failureCode then before.failures + 1 else 1;
            var repeats := if c.digest == "" then 0
                           else if before.lastDigest == c.digest && !c.progress && !c.checkpointChanged
                           then before.repeatedActions + 1 else 1;
            Counted(before, h, c) == before.(
              progressRevision := before.progressRevision + (if c.progress then 1 else 0),
              checkpointRevision := before.checkpointRevision + (if c.checkpointChanged then 1 else 0),
              lastProgressAt := if c.progress then before.updatedAt else before.lastProgressAt,
              noProgress := if c.progress then 0 else before.noProgress + 1,
              failures := failures, repeatedActions := repeats, lastFailure := c.failureCode, lastDigest := c.digest,
              nextCycleAt := if c.failureCode == "" then None
                             else Some(before.updatedAt + BackoffSeconds(failures) * SECOND))
  {
    AppendCycle(h, c);
    hide BackoffSeconds, NoProgressRun, FailureRun, ActionRun;
  }

  /** `RecordCycle` between the provider check and the stop checks: the counters after one more cycle. */
  method Advance(before: Job, result: Cycle, ghost h: seq<Cycle>) returns (r: Outcome<Job>)
    requires Summarises(before, h)
    ensures r.Ok? <==> result.digest == "" || Digest(result.digest)
    ensures r.Ok? ==> r.value == Counted(before, h, result) && Summarises(r.value, h + [result])
  {
    CountedFromJob(before, h, result);
    hide Digest, BackoffSeconds, Counted, Summarises;
    var job := before;
    if result.progress {
      job := job.(progressRevision := job.progressRevision + 1, noProgress := 0, lastProgressAt := job.updatedAt);
    } else {
      job := job.(noProgress := job.noProgress + 1);
    }
    if result.checkpointChanged {
      job := job.(checkpointRevision := job.checkpointRevision + 1);
    }
    if result.failureCode != "" {
      if job.lastFailure == result.failureCode {
        job := job.(failures := job.failures + 1);
      } else {
        job := job.(lastFailure := result.failureCode, failures := 1);
      }
      var delay := RetryBackoff(job.failures);
      job := job.(nextCycleAt := Some(job.updatedAt + delay));
    } else {
      job := job.(lastFailure := "", failures := 0, nextCycleAt := None);
    }
    if result.digest != "" {
      if !Digest(result.digest) {
        return Err;
      }
      if job.lastDigest == result.digest && !result.progress && !result.checkpointChanged {
        job := job.(repeatedActions := job.repeatedActions + 1);
      } else {
        job := job.(lastDigest := result.digest, repeatedActions := 1);
      }
    } else {
      job := job.(lastDigest := "", repeatedActions := 0);
    }
    return Ok(job);
  }

  /** The three stop checks of `RecordCycle`: the job stops exactly when its history gives a reason. */
  method StopIfStuck(before: Job, ghost h: seq<Cycle>) returns (job: Job)
    requires Summarises(before, h)
    ensures job == StoppedBy(before, h)
  {
    job := before;
    if job.noProgress >= 2 {
      job := job.(state := Blocked, safeCode := "no_progress", nextCycleAt := None);
    }
    if job.failures >= 3 {
      job := job.(state := Blocked, safeCode := "repeated_failure", nextCycleAt := None);
    }
    if job.repeatedActions >= 2 {
      job := job.(state := Blocked, safeCode := "repeated_action", nextCycleAt := None);
    }
  }

  lemma SummaryIgnoresClock(before: Job, h: seq<Cycle>, resumes: nat, now: int)
    requires JobInvariant(before, h, resumes)
    ensures Summarises(before.(cycleCount := before.cycleCount + 1, updatedAt := now), h)
  {
  }

  lemma RunningHasNoCode(job: Job, h: seq<Cycle>, resumes: nat)
    requires JobInvariant(job, h, resumes) && job.state.Running?
    ensures job.safeCode == ""
  {
  }

  /** A completed or provider-blocked cycle is counted and leaves the summary of the history alone. */
  lemma StopKeepsInvariant(before: Job, h: seq<Cycle>, resumes: nat, next: JobState, code: string, now: int)
    requires JobInvariant(before, h, resumes) && before.state.Running?
    requires !next.Running? && code in ["completed", "provider_blocked"]
    ensures var after := before.(cycleCount := before.cycleCount + 1, updatedAt := now,
                                 state := next, safeCode := code, nextCycleAt := None);
            ValidJob(after) && JobInvariant(after, h, resumes)
  {
  }

  lemma OrdinaryCycleKeepsInvariant(before: Job, h: seq<Cycle>, resumes: nat, c: Cycle, now: int)
    requires JobInvariant(before, h, resumes) && before.state.Running?
    requires Recordable(c) && !c.completed && !c.providerBlocked
    ensures var counted := Counted(before.(cycleCount := before.cycleCount + 1, updatedAt := now), h, c);
            var after := StoppedBy(counted, h + [c]);
            && ValidJob(after)
            && JobInvariant(after, h + [c], resumes)
            && after.cycleCount == before.cycleCount + 1
            && after.progressRevision == before.progressRevision + (if c.progress then 1 else 0)
  {
    var next := before.(cycleCount := before.cycleCount + 1, updatedAt := now);
    CountedFacts(before, h, resumes, c, now);
    hide Counted, Digest, SafeCode, WorkspaceId, NoProgressRun, FailureRun, ActionRun, BackoffSeconds;
    StoppedKeepsInvariant(Counted(next, h, c), h + [c], resumes);
  }

  lemma CountedFacts(before: Job, h: seq<Cycle>, resumes: nat, c: Cycle, now: int)
    requires JobInvariant(before, h, resumes) && before.state.Running?
    requires Recordable(c) && !c.completed && !c.providerBlocked
    ensures var counted := Counted(before.(cycleCount := before.cycleCount + 1, updatedAt := now), h, c);
            && ValidJob(counted) && Summarises(counted, h + [c])
            && counted.state.Running? && counted.safeCode == ""
            && counted.cycleCount == before.cycleCount + 1
            && counted.progressRevision == before.progressRevision + (if c.progress then 1 else 0)
            && counted.cycleCount <= 2 * counted.progressRevision + 2 * resumes + counted.noProgress
            && counted.cycleCount <= 2 * counted.progressRevision + 2 * resumes + 2
            && (counted.nextCycleAt.Some? ==>
                  && counted.lastFailure != ""
                  && counted.nextCycleAt.value == now + BackoffSeconds(counted.failures) * SECOND)
  {
    AppendCycle(h, c);
  }

  lemma StoppedKeepsInvariant(counted: Job, h: seq<Cycle>, resumes: nat)
    requires ValidJob(counted) && Summarises(counted, h)
    requires counted.state.Running? && counted.safeCode == ""
    requires counted.cycleCount <= 2 * counted.progressRevision + 2 * resumes + counted.noProgress
    requires counted.cycleCount <= 2 * counted.progressRevision + 2 * resumes + 2
    requires counted.nextCycleAt.Some? ==>
               && counted.lastFailure != ""
               && counted.nextCycleAt.value == counted.updatedAt + BackoffSeconds(counted.failures) * SECOND
    ensures ValidJob(StoppedBy(counted, h)) && JobInvariant(StoppedBy(counted, h), h, resumes)
  {
    assert BackoffSeconds(1) == 2 && BackoffSeconds(2) == 4 by {
      assert Pow2(1) == 2 && Pow2(2) == 4;
    }
    assert counted.nextCycleAt.Some? ==> FailureRun(h) >= 1 by {
      if h != [] && counted.lastFailure != "" {
        TrailingRunIsLongest(h, (c: Cycle) => c.failureCode == counted.lastFailure, 1);
      }
    }
  }

  // ---------------------------------------------------------------- the store

  /** The state file of one workspace, with the history it must summarise. */
  class Store {
    var file: Option<Job>
    var observation: string
    ghost var cycles: seq<Cycle>
    ghost var resumes: nat

    ghost predicate Valid()
      reads this
    {
      file.Some? ==> JobInvariant(file.value, cycles, resumes)
    }

    ghost predicate Terminal()
      reads this
    {
      file.Some? && file.value.state in {Completed, Cancelled}
    }

    constructor ()
      ensures Valid() && file.None?
    {
      file, observation, cycles, resumes := None, "", [], 0;
    }

    /** `write`: replaces the file only by a valid job. */
    method Write(job: Job, disk: Disk) returns (r: Outcome<Job>)
      modifies this`file
      ensures r == if ValidJob(job) && disk.writable then Ok(job) else Err
      ensures file == if r.Ok? then Some(job) else old(file)
    {
      if !ValidJob(job) || !disk.writable {
        return Err;
      }
      file := Some(job);
      return Ok(job);
    }

    /** A live job is returned as it is; only a finished one gives way to a fresh job. */
    method Start(workspace: string, runUntil: string, id: string, now: int, disk: Disk)
      returns (r: Outcome<(Job, bool)>)
      requires Valid()
      requires |id| == 35 && id[..3] == "aj_"
      modifies this
      ensures Valid()
      ensures r.Ok? && r.value.1 ==>
                && (old(file).None? || old(Terminal()))
                && file == Some(r.value.0)
                && cycles == [] && resumes == 0
                && r.value.0 == Job(id, workspace, Running, 0, 0, 0, 0, 0, "", "", 0, "", now, now, now, None)
      ensures r.Ok? && !r.value.1 ==> old(file) == Some(r.value.0) && !old(Terminal())
      ensures !(r.Ok? && r.value.1) ==> file == old(file) && cycles == old(cycles) && resumes == old(resumes)
      ensures r.Ok? <==>
              && WorkspaceId(workspace) && runUntil == RUN_UNTIL
              && (old(file).Some? ==> disk.readable && old(file).value.workspace == workspace)
              && (old(file).None? || old(Terminal()) ==> disk.writable)
    {
      if !WorkspaceId(workspace) || runUntil != RUN_UNTIL {
        return Err;
      }
      if file.Some? {
        if !disk.readable || file.value.workspace != workspace {
          return Err;
        }
        if file.value.state in {Running, Paused, Blocked} {
          return Ok((file.value, false));
        }
      }
      var job := Job(id, workspace, Running, 0, 0, 0, 0, 0, "", "", 0, "", now, now, now, None);
      var written := Write(job, disk);
      if written.Err? {
        return Err;
      }
      cycles, resumes := [], 0;
      return Ok((job, true));
    }

    /** `transition`: `Pause`, `Cancel` and every stop the cycle driver asks for. Finished jobs are left alone. */
    method Transition(next: JobState, code: string, now: int, disk: Disk) returns (r: Outcome<Job>)
      requires Valid()
      requires next in {Paused, Blocked, Cancelled} && SafeCode(code)
      modifies this`file
      ensures Valid()
      ensures old(Terminal()) ==> file == old(file) && (r.Ok? ==> old(file) == Some(r.value))
      ensures !old(Terminal()) && r.Ok? ==>
                && old(file).Some?
                && file == Some(r.value)
                && r.value == old(file).value.(state := next, safeCode := code, nextCycleAt := None, updatedAt := now)
      ensures r.Err? ==> file == old(file)
      ensures r.Ok? <==> old(file).Some? && disk.readable && (old(Terminal()) || disk.writable)
    {
      if file.None? || !disk.readable {
        return Err;
      }
      var job := file.value;
      if job.state in {Completed, Cancelled} {
        return Ok(job);
      }
      job := job.(state := next);
      job := job.(safeCode := code);
      job := job.(nextCycleAt := None);
      job := job.(updatedAt := now);
      r := Write(job, disk);
    }

    method Pause(now: int, disk: Disk) returns (r: Outcome<Job>)
      requires Valid()
      modifies this`file
      ensures Valid()
      ensures r.Ok? <==> old(file).Some? && disk.readable && (old(Terminal()) || disk.writable)
      ensures r.Ok? ==>
                && file == Some(r.value)
                && r.value == if old(Terminal()) then old(file).value
                              else Stopped(old(file).value, Paused, "paused", now)
      ensures r.Err? ==> file == old(file)
    {
      r := Transition(Paused, "paused", now, disk);
    }

    method Cancel(now: int, disk: Disk) returns (r: Outcome<Job>)
      requires Valid()
      modifies this`file
      ensures Valid()
      ensures r.Ok? <==> old(file).Some? && disk.readable && (old(Terminal()) || disk.writable)
      ensures r.Ok? ==>
                && file == Some(r.value)
                && r.value == if old(Terminal()) then old(file).value
                              else Stopped(old(file).value, Cancelled, "cancelled", now)
      ensures r.Err? ==> file == old(file)
    {
      r := Transition(Cancelled, "cancelled", now, disk);
    }

    /** Resuming forgets the history the counters summarise, and nothing else. */
    method Resume(now: int, disk: Disk) returns (r: Outcome<Job>)
      requires Valid()
      modifies this
      ensures Valid()
      ensures r.Ok? <==> old(file).Some? && disk.readable && old(file).value.state in {Paused, Blocked} && disk.writable
      ensures r.Ok? ==>
                && file == Some(r.value) && cycles == [] && resumes == old(resumes) + 1
                && r.value == old(file).value.(
                     state := Running, safeCode := "", noProgress := 0, failures := 0, lastFailure := "",
                     lastDigest := "", repeatedActions := 0, nextCycleAt := None, updatedAt := now)
      ensures r.Err? ==> file == old(file) && cycles == old(cycles) && resumes == old(resumes)
    {
      if file.None? || !disk.readable {
        return Err;
      }
      var job := file.value;
      if job.state !in {Paused, Blocked} {
        return Err;
      }
      job := job.(state := Running);
      job := job.(safeCode := "");
      job := job.(noProgress := 0);
      job := job.(failures := 0);
      job := job.(lastFailure := "");
      job := job.(lastDigest := "");
      job := job.(repeatedActions := 0);
      job := job.(nextCycleAt := None);
      job := job.(updatedAt := now);
      r := Write(job, disk);
      if r.Ok? {
        cycles, resumes := [], resumes + 1;
      }
    }

    /**
     One cycle of a running job. The job is stopped exactly when the whole history of
     cycles since it last started or resumed gives a reason to stop it.
     */
    method RecordCycle(result: Cycle, now: int, disk: Disk) returns (r: Outcome<Job>)
      requires Valid()
      modifies this
      ensures Valid()
      ensures resumes == old(resumes)
      ensures r.Ok? <==>
              && old(file).Some? && disk.readable && old(file).value.state.Running? && disk.writable
              && (result.failureCode == "" || SafeCode(result.failureCode))
              && (result.completed || result.providerBlocked || result.digest == "" || Digest(result.digest))
      ensures r.Err? ==> file == old(file) && cycles == old(cycles)
      ensures r.Ok? ==>
                && file == Some(r.value) && r.value == AfterCycle(old(file).value, old(cycles), result, now)
                && cycles == Extended(old(cycles), result)
      ensures r.Ok? ==>
                && cycles == old(cycles) + (if result.completed || result.providerBlocked then [] else [result])
                && r.value.cycleCount == old(file).value.cycleCount + 1 && r.value.updatedAt == now
                && r.value.id == old(file).value.id && r.value.workspace == old(file).value.workspace
                && r.value.createdAt == old(file).value.createdAt
      ensures r.Ok? && result.completed ==>
                r.value.state.Completed? && r.value.safeCode == "completed" && r.value.nextCycleAt.None?
      ensures r.Ok? && !result.completed && result.providerBlocked ==>
                r.value.state.Blocked? && r.value.safeCode == "provider_blocked" && r.value.nextCycleAt.None?
      ensures r.Ok? && (result.completed || result.providerBlocked) ==>
                && r.value.progressRevision == old(file).value.progressRevision
                && r.value.checkpointRevision == old(file).value.checkpointRevision
                && r.value.lastProgressAt == old(file).value.lastProgressAt
      ensures r.Ok? && !result.completed && !result.providerBlocked ==>
                && r.value.progressRevision == old(file).value.progressRevision + (if result.progress then 1 else 0)
                && r.value.checkpointRevision
                   == old(file).value.checkpointRevision + (if result.checkpointChanged then 1 else 0)
                && r.value.lastProgressAt == (if result.progress then now else old(file).value.lastProgressAt)
      ensures r.Ok? && !result.completed && !result.providerBlocked ==>
                var n := |cycles|;
                var repeatedAction := && n >= 2 && cycles[n - 1].digest != ""
                                      && cycles[n - 2].digest == cycles[n - 1].digest
                                      && !cycles[n - 1].progress && !cycles[n - 1].checkpointChanged;
                var repeatedFailure := && n >= 3 && cycles[n - 1].failureCode != ""
                                       && cycles[n - 2].failureCode == cycles[n - 1].failureCode
                                       && cycles[n - 3].failureCode == cycles[n - 1].failureCode;
                var noProgress := n >= 2 && !cycles[n - 1].progress && !cycles[n - 2].progress;
                && (r.value.state.Blocked? <==> repeatedAction || repeatedFailure || noProgress)
                && (r.value.state.Running? <==> !(repeatedAction || repeatedFailure || noProgress))
                && r.value.safeCode == (if repeatedAction then "repeated_action"
                                        else if repeatedFailure then "repeated_failure"
                                        else if noProgress then "no_progress" else "")
                && r.value.nextCycleAt == (
                     if r.value.state.Blocked? || cycles[n - 1].failureCode == "" then None
                     else if n >= 2 && cycles[n - 2].failureCode == cycles[n - 1].failureCode
                     then Some(now + 4_000_000_000) else Some(now + 2_000_000_000))
      ensures observation == old(observation)
    {
      hide JobInvariant, Digest, SafeCode, ValidJob, AfterCycle, StoppedBy, Counted;
      r := Count(result, now, disk);
      if r.Ok? {
        CycleKeeps(old(file).value, old(cycles), result, now);
        StoppingCycle(old(file).value, old(cycles), result, now);
        if !result.completed && !result.providerBlocked {
          RunningHasNoCode(old(file).value, old(cycles), resumes);
          OrdinaryCycleStops(old(file).value, old(cycles), result, now);
        }
      }
    }

    /** `RecordCycle`, against the job computed from the whole history. */
    method Count(result: Cycle, now: int, disk: Disk) returns (r: Outcome<Job>)
      requires Valid()
      modifies this
      ensures Valid()
      ensures resumes == old(resumes) && observation == old(observation)
      ensures r.Ok? <==>
              && old(file).Some? && disk.readable && old(file).value.state.Running? && disk.writable
              && Recordable(result)
      ensures r.Err? ==> file == old(file) && cycles == old(cycles)
      ensures r.Ok? ==>
                && file == Some(r.value) && r.value == AfterCycle(old(file).value, old(cycles), result, now)
                && cycles == Extended(old(cycles), result)
    {
      hide JobInvariant, Digest, SafeCode, ValidJob, Summarises, StoppedBy, Counted;
      if file.None? || !disk.readable {
        return Err;
      }
      var job := file.value;
      if !job.state.Running? {
        return Err;
      }
      if result.failureCode != "" && !SafeCode(result.failureCode) {
        return Err;
      }
      job := job.(cycleCount := job.cycleCount + 1);
      job := job.(updatedAt := now);
      if result.completed {
        job := job.(state := Completed, safeCode := "completed", nextCycleAt := None);
        StopKeepsInvariant(file.value, cycles, resumes, Completed, "completed", now);
        r := Write(job, disk);
      } else if result.providerBlocked {
        job := job.(state := Blocked, safeCode := "provider_blocked", nextCycleAt := None);
        StopKeepsInvariant(file.value, cycles, resumes, Blocked, "provider_blocked", now);
        r := Write(job, disk);
      } else {
        SummaryIgnoresClock(file.value, cycles, resumes, now);
        var advanced := Advance(job, result, cycles);
        if advanced.Err? {
          return Err;
        }
        OrdinaryCycleKeepsInvariant(file.value, cycles, resumes, result, now);
        job := StopIfStuck(advanced.value, cycles + [result]);
        r := Write(job, disk);
        if r.Ok? {
          cycles := cycles + [result];
        }
      }
    }

    /**
     `CycleRunner.Run`: one pass of the driver. It leaves the job alone unless it is running and its
     backoff has elapsed. Then a failing guard or an observation that cannot be kept stops the job,
     and otherwise one cycle is counted.
     */
    method RunCycle(world: Surroundings, now: int, disk: Disk) returns (r: Outcome<Job>)
      requires Valid()
      requires world.answer.Action? ==> Digest(world.answer.digest)
      modifies this
      ensures Valid()
      ensures resumes == old(resumes)
      ensures file != old(file) || cycles != old(cycles) ==>
                && old(file).Some? && old(file).value.state.Running? && r.Ok?
                && (old(file).value.nextCycleAt.Some? ==> old(file).value.nextCycleAt.value <= now)
      ensures old(file).Some? ==>
                (old(file).value.Due(now) <==>
                 && old(file).value.state.Running?
                 && (old(file).value.nextCycleAt.None? || old(file).value.nextCycleAt.value <= now))
      ensures r.Ok? ==> old(file).Some? && disk.readable && file == Some(r.value)
      ensures r.Ok? && old(file).value.Due(now) ==>
                if Halt(world).Some? then
                  && r.value == Stopped(old(file).value, Blocked, Halt(world).value, now) && cycles == old(cycles)
                else
                  var c := Driven(world, old(observation));
                  r.value == AfterCycle(old(file).value, old(cycles), c, now) && cycles == Extended(old(cycles), c)
      ensures r.Err? <==>
              || old(file).None? || !disk.readable
              || (old(file).value.Due(now)
                  && !(disk.writable && (Halt(world).Some? || Recordable(Driven(world, old(observation))))))
      ensures observation ==
              if old(file).Some? && disk.readable && old(file).value.Due(now) && Executes(world)
                 && Observed(world.execution) && world.execution.observationWritable
              then world.execution.observation else old(observation)
    {
      hide JobInvariant, AfterCycle, Extended, TrimSpace, Digest, Obstacle;
      if file.None? || !disk.readable {
        return Err;
      }
      var job := file.value;
      if !job.Due(now) {
        return Ok(job);
      }
      var obstacle := Obstacle(world);
      if obstacle.Some? {
        r := Transition(Blocked, obstacle.value, now, disk);
        return;
      }
      match world.answer {
        case ProviderBlocked =>
          r := RecordCycle(Cycle(false, false, "", false, true, ""), now, disk);
        case ProviderFailed =>
          r := RecordCycle(Cycle(false, false, "provider_transient", false, false, ""), now, disk);
        case Action(valid, digest) =>
          if !valid {
            r := RecordCycle(Cycle(false, false, "provider_invalid", false, false, ""), now, disk);
            return;
          }
          r := RecordExecution(digest, world.execution, now, disk);
      }
    }

    /** The part of `CycleRunner.Run` after the action has been executed. */
    method RecordExecution(digest: string, done: Execution, now: int, disk: Disk) returns (r: Outcome<Job>)
      requires Valid()
      requires file.Some? && file.value.state.Running? && disk.readable
      requires Digest(digest)
      modifies this
      ensures Valid() && file.Some?
      ensures resumes == old(resumes)
      ensures r.Ok? <==> disk.writable && (Unwritable(done) || Recordable(Achieved(done, digest, old(observation))))
      ensures Unwritable(done) <==> !done.providerBlocked && done.observation != "" && !done.observationWritable
      ensures r.Ok? ==>
                && file == Some(r.value)
                && if Unwritable(done) then
                     && r.value == Stopped(old(file).value, Blocked, "observation_invalid", now)
                     && cycles == old(cycles)
                   else
                     var c := Achieved(done, digest, old(observation));
                     r.value == AfterCycle(old(file).value, old(cycles), c, now) && cycles == Extended(old(cycles), c)
      ensures r.Err? ==> file == old(file) && cycles == old(cycles)
      ensures observation ==
              if !done.providerBlocked && done.observation != "" && done.observationWritable
              then done.observation else old(observation)
    {
      hide JobInvariant, AfterCycle, Extended, TrimSpace, Digest;
      var failureCode, progress := done.failureCode, done.progress;
      if done.failed && failureCode == "" {
        failureCode := "action_failed";
      }
      if done.providerBlocked {
        r := RecordCycle(Cycle(false, false, "", false, true, digest), now, disk);
        return;
      }
      if done.observation != "" {
        if TrimSpace(observation) == TrimSpace(done.observation) {
          progress := false;
        }
        if !done.observationWritable {
          r := Transition(Blocked, "observation_invalid", now, disk);
          return;
        }
        observation := done.observation;
      }
      r := RecordCycle(Cycle(progress, done.checkpointChanged, failureCode, done.completed, false, digest), now, disk);
    }

    /**
     Any run of requests: every reachable state keeps the invariant, and a finished job stays
     finished until `Start`. A pass of the driver is one request, or, with other requests coming in
     between, the requests its last steps are.
     */
    method Serve(requests: seq<Request>, disks: seq<Disk>)
      requires Valid()
      requires |requests| == |disks|
      requires forall i | 0 <= i < |requests| :: requests[i].WellFormed()
      modifies this
      ensures Valid()
      ensures file.Some? ==> file.value.cycleCount <= 2 * file.value.progressRevision + 2 * (1 + resumes)
      ensures old(Terminal()) && (forall i | 0 <= i < |requests| :: !requests[i].StartJob?) ==> file == old(file)
    {
      for i := 0 to |requests|
        invariant Valid()
        invariant old(Terminal()) && (forall j | 0 <= j < i :: !requests[j].StartJob?) ==> file == old(file)
      {
        assert requests[i].WellFormed();
        match requests[i] {
          case StartJob(workspace, id, now) => var _ := Start(workspace, RUN_UNTIL, id, now, disks[i]);
          case PauseJob(now) => var _ := Pause(now, disks[i]);
          case ResumeJob(now) => var _ := Resume(now, disks[i]);
          case CancelJob(now) => var _ := Cancel(now, disks[i]);
          case DriveJob(world, now) => var _ := RunCycle(world, now, disks[i]);
          case RecordJob(result, now) => var _ := RecordCycle(result, now, disks[i]);
          case StopJob(code, now) => var _ := Transition(Blocked, code, now, disks[i]);
          case KeepObservation(text) => if disks[i].writable { observation := text; }
        }
      }
      if file.Some? {
        ProgressBound(file.value, cycles, resumes);
      }
    }
  }
}
