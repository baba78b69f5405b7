/**
 One leased control operation from its first progress report to the release of the gate
 (cmd/mcp-edge/control_operation_lifecycle_unix.go and the worker loop around it), over every
 schedule of ticks, replies, executor exits and shutdowns.
 */
module Lifecycle {
  import opened Text

  datatype Kind = BundleUpdate | BundleRollback | EdgeRepair | Ordinary(registers: bool)

  const STOPPING := "stopping"
  const FINALIZING := "finalizing"

  function ControlPhase(kind: Kind): (phase: string)
    ensures phase != STOPPING && phase != FINALIZING
    ensures phase == "updating" <==> kind.BundleUpdate?
    ensures phase == "rolling_back" <==> kind.BundleRollback?
    ensures phase == "repairing" <==> kind.EdgeRepair?
    ensures phase == "running" <==> kind.Ordinary?
  {
    match kind
    case BundleUpdate => "updating"
    case BundleRollback => "rolling_back"
    case EdgeRepair => "repairing"
    case Ordinary(_) => "running"
  }

  /** The server's answer to a progress report, or none. */
  datatype Reply = Answer(cancel: bool) | Lost

  /** What happens for one lease, in order: messages to the server, the executor and the gate. */
  datatype Entry =
    | Progress(revision: nat, phase: string, reply: Reply)
    | ExecutorStarted
    | GateTaken
    | ExecutorExited
    | Completed(code: string)
    | Cancelled
    | GateReleased

  /**
   What the select loop meets next. `Granted` is the executor getting the gate; `late` says
   whether it still gets it while its cancelled context makes it stop.
   */
  datatype Event =
    | Finishes(code: string, reply: Reply)
    | Granted
    | Tick(reply: Reply, late: bool)
    | Shutdown(late: bool)

  /** How the lifecycle returns. */
  datatype Failure = NoFailure | FinalizingLost | Aborted

  datatype Ending = Ending(code: string, cancelRequested: bool, gateHeld: bool, failure: Failure)

  // -------------------------------------------------------------- the protocol

  datatype Executor = NotStarted | Working | Exited

  datatype Gate = Untaken | Held | Returned

  /** What the entries so far amount to; `lost` is a report other than the finalizing one that got no answer. */
  datatype Stage = Stage(revision: nat, cancelSeen: bool, executor: Executor, gate: Gate, lost: bool, ended: bool)

  const START := Stage(0, false, NotStarted, Untaken, false, false)

  predicate Terminal(e: Entry) { e.Completed? || e.Cancelled? }

  predicate AsksToCancel(e: Entry) { e.Progress? && e.reply.Answer? && e.reply.cancel }

  /** Whether an entry may come at this stage of an operation of the given kind. */
  predicate Allowed(kind: Kind, s: Stage, e: Entry) {
    match e
    case Progress(revision, phase, reply) =>
      && revision == s.revision + 1 && !s.lost && !s.ended
      && phase == if s.executor.Exited? then FINALIZING else if s.cancelSeen then STOPPING else ControlPhase(kind)
    case ExecutorStarted => s.executor.NotStarted? && s.revision == 1 && !s.lost && !s.cancelSeen && !s.ended
    case GateTaken => s.executor.Working? && s.gate.Untaken?
    case ExecutorExited => s.executor.Working?
    case Completed(_) => s.executor.Exited? && !s.cancelSeen && !s.lost && !s.ended && !s.gate.Returned?
    case Cancelled => !s.executor.Working? && s.cancelSeen && !s.lost && !s.ended && !s.gate.Returned?
    case GateReleased => s.executor.Exited? && s.gate.Held?
  }

  function After(s: Stage, e: Entry): Stage {
    match e
    case Progress(revision, phase, reply) =>
      s.(
      revision := revision, cancelSeen := s.cancelSeen || AsksToCancel(e),
      lost := s.lost || (reply.Lost? && phase != FINALIZING))
    case ExecutorStarted => s.(executor := Working)
    case GateTaken => s.(gate := Held)
    case ExecutorExited => s.(executor := Exited)
    case Completed(_) => s.(ended := true)
    case Cancelled => s.(ended := true)
    case GateReleased => s.(gate := Returned)
  }

  function StageOf(log: seq<Entry>): Stage {
    if log == [] then START else After(StageOf(log[..|log| - 1]), log[|log| - 1])
  }

  /** Every entry was allowed when it came. */
  predicate Conforms(kind: Kind, log: seq<Entry>) {
    forall i | 0 <= i < |log| :: Allowed(kind, StageOf(log[..i]), log[i])
  }

  lemma Grow(kind: Kind, log: seq<Entry>, e: Entry)
    requires Conforms(kind, log) && Allowed(kind, StageOf(log), e)
    ensures Conforms(kind, log + [e]) && StageOf(log + [e]) == After(StageOf(log), e)
  {
    var more := log + [e];
    assert more[..|log|] == log;
    forall i | 0 <= i < |more| ensures Allowed(kind, StageOf(more[..i]), more[i]) {
      assert i < |log| ==> more[..i] == log[..i];
    }
  }

  // ------------------------------------------- what conforming logs look like

  function Revisions(log: seq<Entry>): seq<nat> {
    if log == [] then []
    else
      var before, last := Revisions(log[..|log| - 1]), log[|log| - 1];
      if last.Progress? then before + [last.revision] else before
  }

  lemma ConformsPrefix(kind: Kind, log: seq<Entry>, n: nat)
    requires Conforms(kind, log) && n <= |log|
    ensures Conforms(kind, log[..n])
  {
    forall i | 0 <= i < n
      ensures Allowed(kind, StageOf(log[..n][..i]), log[..n][i])
    {
      assert log[..n][..i] == log[..i];
    }
  }

  /** Revisions are 1, 2, 3 and so on. */
  lemma {:induction false} RevisionsCount(kind: Kind, log: seq<Entry>, k: nat)
    requires Conforms(kind, log)
    ensures |Revisions(log)| == StageOf(log).revision
    ensures k < |Revisions(log)| ==> Revisions(log)[k] == k + 1
  {
    if log != [] {
      var n := |log| - 1;
      ConformsPrefix(kind, log, n);
      RevisionsCount(kind, log[..n], k);
      assert Allowed(kind, StageOf(log[..n]), log[n]);
    }
  }

  lemma {:induction false} CancelWasSeen(log: seq<Entry>)
    ensures StageOf(log).cancelSeen <==> exists j | 0 <= j < |log| :: AsksToCancel(log[j])
  {
    if log != [] {
      var n := |log| - 1;
      CancelWasSeen(log[..n]);
      if j :| 0 <= j < n && AsksToCancel(log[..n][j]) { assert AsksToCancel(log[j]); }
      if j :| 0 <= j < |log| && AsksToCancel(log[j]) { assert j < n ==> AsksToCancel(log[..n][j]); }
    }
  }

  /**
   Before the executor has exited, "stopping" is reported exactly after an answer has asked to
   cancel, and the operation's own phase until then; after its exit "finalizing" is.
   */
  lemma StoppingFollowsCancel(kind: Kind, log: seq<Entry>, i: nat)
    requires Conforms(kind, log) && i < |log| && log[i].Progress?
    ensures log[i].phase == "finalizing" <==> StageOf(log[..i]).executor.Exited?
    ensures !StageOf(log[..i]).executor.Exited? ==>
              (log[i].phase == "stopping" <==> exists j | 0 <= j < i :: AsksToCancel(log[j]))
    ensures log[i].phase in ["finalizing", "stopping", ControlPhase(kind)]
  {
    assert Allowed(kind, StageOf(log[..i]), log[i]);
    CancelWasSeen(log[..i]);
    assert forall j | 0 <= j < i :: log[..i][j] == log[j];
  }

  /** What never goes back: a lost report, the end, an executor that was started or has exited, a gate given back. */
  lemma {:induction false} StagesGrow(kind: Kind, log: seq<Entry>, i: nat)
    requires Conforms(kind, log) && i <= |log|
    ensures var a, b := StageOf(log[..i]), StageOf(log);
            && (a.lost ==> b.lost) && (a.ended ==> b.ended) && (a.cancelSeen ==> b.cancelSeen)
            && (!a.executor.NotStarted? ==> !b.executor.NotStarted?) && (a.executor.Exited? ==> b.executor.Exited?)
            && (a.gate.Returned? ==> b.gate.Returned?) && (!a.gate.Untaken? ==> !b.gate.Untaken?)
    decreases |log|
  {
    if i < |log| {
      var n := |log| - 1;
      ConformsPrefix(kind, log, n);
      StagesGrow(kind, log[..n], i);
      assert log[..n][..i] == log[..i];
      assert Allowed(kind, StageOf(log[..n]), log[n]);
    } else {
      assert log[..i] == log;
    }
  }

  lemma AfterEntry(kind: Kind, log: seq<Entry>, i: nat)
    requires Conforms(kind, log) && i < |log|
    ensures StageOf(log[..i + 1]) == After(StageOf(log[..i]), log[i]) && Allowed(kind, StageOf(log[..i]), log[i])
  {
    assert log[..i + 1][..i] == log[..i];
  }

  /** Of two entries the later one is made in full view of the earlier one. */
  lemma Earlier(kind: Kind, log: seq<Entry>, i: nat, j: nat)
    requires Conforms(kind, log) && i < j < |log|
    ensures var a, b := After(StageOf(log[..i]), log[i]), StageOf(log[..j]);
            && Allowed(kind, StageOf(log[..i]), log[i]) && Allowed(kind, b, log[j])
            && (a.lost ==> b.lost) && (a.ended ==> b.ended) && (a.executor.Exited? ==> b.executor.Exited?)
            && (!a.executor.NotStarted? ==> !b.executor.NotStarted?) && (a.gate.Returned? ==> b.gate.Returned?)
            && (!a.gate.Untaken? ==> !b.gate.Untaken?)
  {
    AfterEntry(kind, log, i);
    ConformsPrefix(kind, log, j);
    StagesGrow(kind, log[..j], i + 1);
    assert log[..j][..i + 1] == log[..i + 1];
    assert Allowed(kind, StageOf(log[..j]), log[j]);
  }

  /**
   At most one terminal message is sent, never beside a report that was lost on the way, and the
   gate is taken and given back at most once, never before the terminal message.
   */
  lemma TerminalOnce(kind: Kind, log: seq<Entry>, i: nat, j: nat)
    requires Conforms(kind, log) && i < j < |log|
    ensures !(Terminal(log[i]) && Terminal(log[j]))
    ensures log[i].Progress? && log[i].reply.Lost? && log[i].phase != FINALIZING ==>
              !Terminal(log[j]) && !log[j].Progress?
    ensures !(log[i].ExecutorStarted? && log[j].ExecutorStarted?) && !(log[i].GateTaken? && log[j].GateTaken?)
    ensures log[i].GateReleased? ==> !log[j].GateReleased? && !Terminal(log[j]) && !log[j].GateTaken?
  {
    Earlier(kind, log, i, j);
  }

  /** A terminal message finds no executor at work, and says what the answers asked for. */
  lemma TerminalAfterExit(kind: Kind, log: seq<Entry>, i: nat)
    requires Conforms(kind, log) && i < |log| && Terminal(log[i])
    ensures !StageOf(log[..i]).executor.Working?
    ensures log[i].Cancelled? <==> exists j | 0 <= j < i :: AsksToCancel(log[j])
    ensures (exists j | 0 <= j < i :: log[j] == ExecutorStarted) ==> StageOf(log[..i]).executor.Exited?
  {
    assert Allowed(kind, StageOf(log[..i]), log[i]);
    CancelWasSeen(log[..i]);
    forall j | 0 <= j < i ensures log[..i][j] == log[j] {}
    if j :| 0 <= j < i && log[j] == ExecutorStarted { Earlier(kind, log, j, i); }
  }

  // ------------------------------------------------------------- the operation

  /** What is true of a log when the lifecycle returns. */
  ghost predicate Returns(s: Stage, end: Ending) {
    && !s.executor.Working? && !s.ended && !s.gate.Returned?
    && (end.gateHeld <==> s.gate.Held?) && (s.gate.Held? ==> s.executor.Exited?)
    && (s.lost ==> end.failure.Aborted?)
    && (!end.failure.Aborted? ==> end.cancelRequested == s.cancelSeen && (s.executor.Exited? || s.cancelSeen))
  }

  /** An event after which the select loop returns. */
  predicate Ends(e: Event) {
    e.Finishes? || e.Shutdown? || (e.Tick? && e.reply.Lost?)
  }

  /** The event that makes the select loop return. */
  predicate FirstEnd(schedule: seq<Event>, i: int) {
    0 <= i < |schedule| && Ends(schedule[i]) && forall j | 0 <= j < i :: !Ends(schedule[j])
  }

  /** The executor had got the gate before the given event. */
  predicate GrantedBefore(schedule: seq<Event>, i: nat) {
    exists j | 0 <= j < i && j < |schedule| :: schedule[j].Granted?
  }

  /** The answer to a tick before the given event asked to cancel. */
  predicate AskedBefore(schedule: seq<Event>, i: nat) {
    exists j | 0 <= j < i && j < |schedule| :: schedule[j].Tick? && schedule[j].reply == Answer(true)
  }

  /** How the lifecycle ends if the given event is the one that makes the select loop return. */
  ghost predicate EndsAs(schedule: seq<Event>, i: nat, end: Ending)
    requires i < |schedule|
  {
    match schedule[i]
    case Finishes(code, reply) =>
      && end.code == (if GrantedBefore(schedule, i) then code else "cancelled")
      && (end.cancelRequested <==> AskedBefore(schedule, i) || reply == Answer(true))
      && end.failure == (if reply.Lost? then FinalizingLost else NoFailure)
      && (end.gateHeld <==> GrantedBefore(schedule, i))
    case Granted => false
    case Tick(_, late) => end.failure.Aborted? && (end.gateHeld <==> GrantedBefore(schedule, i) || late)
    case Shutdown(late) => end.failure.Aborted? && (end.gateHeld <==> GrantedBefore(schedule, i) || late)
  }

  lemma NothingBefore(schedule: seq<Event>)
    ensures !GrantedBefore(schedule, 0) && !AskedBefore(schedule, 0)
  {
  }

  lemma OneMoreEvent(schedule: seq<Event>, i: nat)
    requires i < |schedule|
    ensures GrantedBefore(schedule, i + 1) <==> GrantedBefore(schedule, i) || schedule[i].Granted?
    ensures AskedBefore(schedule, i + 1) <==>
            AskedBefore(schedule, i) || (schedule[i].Tick? && schedule[i].reply == Answer(true))
  {
  }

  class Session {
    const kind: Kind
    var log: seq<Entry>

    constructor (kind: Kind)
      ensures this.kind == kind && log == [] && Valid()
    {
      this.kind, log := kind, [];
    }

    ghost predicate Valid()
      reads this
    {
      Conforms(kind, log)
    }

    ghost function Now(): Stage
      reads this
    {
      StageOf(log)
    }

    method Record(e: Entry)
      requires Valid() && Allowed(kind, Now(), e)
      modifies this
      ensures Valid() && log == old(log) + [e] && Now() == After(old(Now()), e)
    {
      Grow(kind, log, e);
      log := log + [e];
    }

    /** Waiting for a cancelled executor: it may still get the gate, but it exits before the lifecycle goes on. */
    method AwaitExit(gateHeld: bool, late: bool) returns (held: bool)
      requires Valid() && Now().executor.Working? && (gateHeld <==> Now().gate.Held?) && !Now().gate.Returned?
      modifies this
      ensures Valid() && held == (gateHeld || late)
      ensures Now() == old(Now()).(executor := Exited, gate := if held then Held else Untaken)
    {
      if late && !gateHeld {
        Record(GateTaken);
      }
      Record(ExecutorExited);
      return gateHeld || late;
    }

    /**
     `executeControlOperationLifecycle` with the gate taken inside the executor. It returns only
     after a started executor has exited; `None` means that the schedule ended first.
     */
    method Execute(first: Reply, schedule: seq<Event>) returns (end: Option<Ending>)
      requires log == []
      modifies this
      ensures Valid() && !Now().ended && !Now().gate.Returned?
      ensures end.Some? ==> Returns(Now(), end.value)
      ensures end.Some? <==> first.Lost? || first.cancel || exists i | 0 <= i < |schedule| :: Ends(schedule[i])
      ensures first.Lost? ==> end == Some(Ending("", false, false, Aborted))
      ensures first == Answer(true) ==> end == Some(Ending("", true, false, NoFailure))
      ensures first == Answer(false) ==> forall i: nat | FirstEnd(schedule, i) :: EndsAs(schedule, i, end.value)
      ensures end.Some? && end.value.failure.Aborted? ==>
                Now().lost || exists i | 0 <= i < |schedule| :: schedule[i].Shutdown?
    {
      Record(Progress(1, ControlPhase(kind), first));
      if first.Lost? {
        return Some(Ending("", false, false, Aborted));
      }
      if first.cancel {
        return Some(Ending("", true, false, NoFailure));
      }
      Record(ExecutorStarted);
      end := Supervise(schedule);
    }

    /** The select loop: how it ends is decided by the first event that ends it and the events before. */
    method Supervise(schedule: seq<Event>) returns (end: Option<Ending>)
      requires Valid() && Now() == Stage(1, false, Working, Untaken, false, false)
      modifies this
      ensures Valid() && !Now().ended && !Now().gate.Returned?
      ensures end.Some? ==> Returns(Now(), end.value)
      ensures end.Some? <==> exists i | 0 <= i < |schedule| :: Ends(schedule[i])
      ensures forall i: nat | FirstEnd(schedule, i) && schedule[i].Finishes? ::
                && end.value.code == (if exists j | 0 <= j < i :: schedule[j].Granted? then schedule[i].code
                                      else "cancelled")
                && end.value.failure == (if schedule[i].reply.Lost? then FinalizingLost else NoFailure)
                && (end.value.cancelRequested <==>
                    || schedule[i].reply == Answer(true)
                    || exists j | 0 <= j < i :: schedule[j].Tick? && schedule[j].reply == Answer(true))
                && (end.value.gateHeld <==> exists j | 0 <= j < i :: schedule[j].Granted?)
      ensures forall i: nat | FirstEnd(schedule, i) && !schedule[i].Finishes? ::
                && end.value.failure.Aborted?
                && (end.value.gateHeld <==> schedule[i].late || exists j | 0 <= j < i :: schedule[j].Granted?)
      ensures forall i: nat | FirstEnd(schedule, i) :: EndsAs(schedule, i, end.value)
      ensures end.Some? && end.value.failure.Aborted? ==>
                Now().lost || exists i | 0 <= i < |schedule| :: schedule[i].Shutdown?
    {
      hide Conforms, StageOf, Returns;
      end := Loop(schedule);
    }

    /** The loop itself. */
    method Loop(schedule: seq<Event>) returns (end: Option<Ending>)
      requires Valid() && Now() == Stage(1, false, Working, Untaken, false, false)
      modifies this
      ensures Valid() && !Now().ended && !Now().gate.Returned?
      ensures end.Some? ==> Returns(Now(), end.value)
      ensures end.Some? <==> exists i | 0 <= i < |schedule| :: Ends(schedule[i])
      ensures forall i: nat | FirstEnd(schedule, i) :: EndsAs(schedule, i, end.value)
      ensures end.Some? && end.value.failure.Aborted? ==>
                Now().lost || exists i | 0 <= i < |schedule| :: schedule[i].Shutdown?
    {
      hide Conforms, StageOf, GrantedBefore, AskedBefore;
      NothingBefore(schedule);
      var revision, cancelRequested, gateHeld := 1, false, false;
      for i := 0 to |schedule|
        invariant forall j | 0 <= j < i :: !Ends(schedule[j])
        invariant gateHeld <==> GrantedBefore(schedule, i)
        invariant cancelRequested <==> AskedBefore(schedule, i)
        invariant Valid()
        invariant Now() == Stage(revision, cancelRequested, Working, if gateHeld then Held else Untaken, false, false)
      {
        OneMoreEvent(schedule, i);
        match schedule[i] {
          case Finishes(code, reply) =>
            end := Finish(if gateHeld then code else "cancelled", reply, revision, cancelRequested, gateHeld);
            return;
          case Granted =>
            if !gateHeld {
              Record(GateTaken);
              gateHeld := true;
            }
          case Tick(reply, late) =>
            revision := revision + 1;
            Record(Progress(revision, if cancelRequested then STOPPING else ControlPhase(kind), reply));
            if reply.Lost? {
              gateHeld := AwaitExit(gateHeld, late);
              return Some(Ending("", cancelRequested, gateHeld, Aborted));
            }
            cancelRequested := cancelRequested || reply.cancel;
          case Shutdown(late) =>
            gateHeld := AwaitExit(gateHeld, late);
            return Some(Ending("", cancelRequested, gateHeld, Aborted));
        }
      }
      return None;
    }

    /** The executor has exited: the finalizing report. A report that is lost here does not discard the result. */
    method Finish(code: string, reply: Reply, revision: nat, cancelRequested: bool, gateHeld: bool)
      returns (end: Option<Ending>)
      requires Valid()
      requires Now() == Stage(revision, cancelRequested, Working, if gateHeld then Held else Untaken, false, false)
      modifies this
      ensures Valid() && end.Some? && Returns(Now(), end.value)
      ensures end.value == Ending(code, cancelRequested || reply == Answer(true), gateHeld,
                                  if reply.Lost? then FinalizingLost else NoFailure)
    {
      Record(ExecutorExited);
      Record(Progress(revision + 1, FINALIZING, reply));
      if reply.Lost? {
        return Some(Ending(code, cancelRequested, gateHeld, FinalizingLost));
      }
      return Some(Ending(code, cancelRequested || reply.cancel, gateHeld, NoFailure));
    }

    /**
     One round of `runControlOperationWorker`: the lifecycle, the terminal message if there may be
     one, and the release of the gate. A finished round leaves no executor at work and no gate held.
     */
    method Serve(first: Reply, schedule: seq<Event>, registered: bool) returns (finished: bool, sent: Option<Entry>)
      requires log == []
      modifies this
      ensures Valid()
      ensures finished <==> first.Lost? || first.cancel || exists i | 0 <= i < |schedule| :: Ends(schedule[i])
      ensures finished ==> !Now().executor.Working? && !Now().gate.Held?
      ensures !finished ==> !Now().ended && !Now().gate.Returned?
      ensures sent.Some? <==> Now().ended
      ensures sent.Some? ==> Terminal(sent.value) && sent.value in log
      ensures finished && Now().lost ==> sent.None?
      ensures finished && !Now().lost && (forall i | 0 <= i < |schedule| :: !schedule[i].Shutdown?) ==> sent.Some?
      ensures first.Lost? ==> sent.None?
      ensures first == Answer(true) ==> sent == Some(Cancelled)
      ensures first == Answer(false) ==>
                forall i: nat | FirstEnd(schedule, i) ::
                  && (sent.Some? <==> schedule[i].Finishes?)
                  && (sent == Some(Cancelled) <==>
                      && schedule[i].Finishes?
                      && (schedule[i].reply == Answer(true)
                          || exists j | 0 <= j < i :: schedule[j].Tick? && schedule[j].reply == Answer(true)))
                  && (sent.Some? && sent.value.Completed? ==>
                        var granted := exists j | 0 <= j < i :: schedule[j].Granted?;
                        var code := if granted then schedule[i].code else "cancelled";
                        sent.value.code == if code == "" && kind != Ordinary(false) && !registered
                                           then "workspace_registration_failed" else code)
    {
      hide Conforms, StageOf;
      var end := Execute(first, schedule);
      if end.None? {
        return false, None;
      }
      var Ending(code, cancelRequested, gateHeld, failure) := end.value;
      sent := None;
      if !failure.Aborted? {
        if cancelRequested {
          sent := Some(Cancelled);
        } else {
          if code == "" && kind != Ordinary(false) && !registered {
            code := "workspace_registration_failed";
          }
          sent := Some(Completed(code));
        }
        Record(sent.value);
      }
      if gateHeld {
        Record(GateReleased);
      }
      return true, sent;
    }
  }
}
