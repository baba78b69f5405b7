/**
 Workers of one Edge process side by side (cmd/mcp-edge): the gate they share, the durable
 receipt of a bundle operation, and the starts of the root updater, over every interleaving
 and across crashes.
 */
module EdgeWorkers {
  import opened Text

  /** An operation with its kind. Bundle operations (update, rollback, repair) need the gate exclusively. */
  datatype Op = Op(id: nat, bundle: bool)

  datatype Hold = Free | Shared | Exclusive

  function Need(op: Op): Hold { if op.bundle then Exclusive else Shared }

  /**
   How far a worker has come with its lease. From the end of its executor on, `entered` says
   whether the executor got the gate: the worker's `gateHeld`.
   */
  datatype Worker =
    | Idle
    | Waiting(op: Op)
    | Entered(op: Op)
    | Fresh(op: Op)
    | Written(op: Op)
    | Starting(op: Op)
    | Failing(op: Op)
    | Done(op: Op, entered: bool)
    | Acked(op: Op, entered: bool)
    | Clearing(op: Op, failed: bool, entered: bool)
    | Leaving(op: Op, entered: bool)

  /** What a worker is owed by the gate: all it needs, from the moment it gets it until it gives it back. */
  function Holds(w: Worker): Hold {
    match w
    case Idle => Free
    case Waiting(_) => Free
    case Done(op, entered) => if entered then Need(op) else Free
    case Acked(op, entered) => if entered then Need(op) else Free
    case Clearing(op, _, entered) => if entered then Need(op) else Free
    case Leaving(op, entered) => if entered then Need(op) else Free
    case _ => Need(w.op)
  }

  /**
   The gate's lock, the receipt on disk, and a record of the updater's starts. `open` has the
   operations whose start has not definitely failed and whose end is not acknowledged, `twice`
   those started while open, `crossed` those started under another operation's receipt. `started`
   has all whose last start was made and has not definitely failed, and `phantom` those whose
   executor found its own receipt although they are not among them. `ended` has the operations the
   server is done with, `running` those whose root unit may be at work, and `overlap` those started
   while the unit of another may have been.
   */
  datatype Edge = Edge(
    workers: seq<Worker>, writer: bool, readers: int, receipt: Option<Op>,
    open: set<Op>, twice: set<Op>, crossed: set<Op>, started: set<Op>, phantom: set<Op>,
    ended: set<Op>, running: set<Op>, overlap: set<Op>)

  datatype Linking = Linked | LinkedButFailed | NotLinked

  /**
   How a start ends. `Unclear` and `NeverRan` look the same to the executor, which keeps the
   receipt: the context ended, and the updater's unit may be at work or was never asked for.
   */
  datatype StartResult = Succeeds | Unclear | NeverRan | DefinitelyFails

  datatype Step =
    | Lease(w: nat, op: Op)
    | Acquire(w: nat)
    | Deny(w: nat)
    | ReadReceipt(w: nat, readable: bool)
    | WriteReceipt(w: nat, linking: Linking)
    | Start(w: nat)
    | StartReturns(w: nat, result: StartResult)
    | Acknowledge(w: nat)
    | NoAnswer(w: nat, recorded: bool)
    | ClearRead(w: nat, readable: bool)
    | ClearRemove(w: nat, works: bool)
    | Release(w: nat)
    | Crash
    | Expire(op: Op)
    | UnitEnds(op: Op)

  /** The step is one of a worker, not a crash, a decision of the server or the end of a unit. */
  predicate OfWorker(step: Step) {
    !step.Crash? && !step.Expire? && !step.UnitEnds?
  }

  function Put(e: Edge, w: nat, x: Worker): Edge
    requires w < |e.workers|
  {
    e.(workers := e.workers[w := x])
  }

  /** `acquire`: one try of the lock. */
  function DoAcquire(e: Edge, w: nat): Edge
    requires w < |e.workers| && e.workers[w].Waiting?
  {
    var op := e.workers[w].op;
    if op.bundle then
      if e.writer || e.readers != 0 then e else Put(e, w, Entered(op)).(writer := true)
    else if e.writer then e
    else Put(e, w, Entered(op)).(readers := e.readers + 1)
  }

  /** The end of a lease, with `release` if the executor got the gate. */
  function DoRelease(e: Edge, w: nat): Edge
    requires w < |e.workers| && e.workers[w].Leaving?
  {
    var left := Put(e, w, Idle);
    if !e.workers[w].entered then left
    else if e.workers[w].op.bundle then left.(writer := false)
    else left.(readers := e.readers - 1)
  }

  /** The executor's look at the receipt; an ordinary operation has none and simply runs. */
  function DoRead(e: Edge, w: nat, readable: bool): Edge
    requires w < |e.workers| && e.workers[w].Entered?
  {
    var op := e.workers[w].op;
    if op.bundle && readable && e.receipt.None? then Put(e, w, Fresh(op))
    else
      var own := op.bundle && readable && e.receipt == Some(op);
      Put(e, w, Done(op, true)).(phantom := if own && op !in e.started then e.phantom + {op} else e.phantom)
  }

  /** `writeBundleReceipt`: linking fails if a receipt exists, and may be reported as failed after it succeeded. */
  function DoWrite(e: Edge, w: nat, linking: Linking): Edge
    requires w < |e.workers| && e.workers[w].Fresh?
  {
    var op := e.workers[w].op;
    if e.receipt.Some? || linking.NotLinked? then Put(e, w, Done(op, true))
    else Put(e, w, if linking.Linked? then Written(op) else Done(op, true)).(receipt := Some(op))
  }

  function DoStart(e: Edge, w: nat): Edge
    requires w < |e.workers| && e.workers[w].Written?
  {
    var op := e.workers[w].op;
    Put(e, w, Starting(op)).(
      open := e.open + {op},
      twice := if op in e.open then e.twice + {op} else e.twice,
      crossed := if e.receipt == Some(op) then e.crossed else e.crossed + {op},
      started := e.started + {op},
      running := e.running + {op},
      overlap := if e.running <= {op} then e.overlap else e.overlap + {op})
  }

  function DoReturn(e: Edge, w: nat, result: StartResult): Edge
    requires w < |e.workers| && e.workers[w].Starting?
  {
    var op := e.workers[w].op;
    match result
    case Succeeds => Put(e, w, Done(op, true)).(running := e.running - {op})
    case Unclear => Put(e, w, Done(op, true))
    case NeverRan => Put(e, w, Done(op, true)).(started := e.started - {op}, running := e.running - {op})
    case DefinitelyFails =>
      Put(e, w, Failing(op)).(open := e.open - {op}, started := e.started - {op}, running := e.running - {op})
  }

  /** The server accepts the completion or cancellation; the operation is not leased again. */
  function DoAcknowledge(e: Edge, w: nat): Edge
    requires w < |e.workers| && e.workers[w].Done?
  {
    var op := e.workers[w].op;
    Put(e, w, Acked(op, e.workers[w].entered)).(open := e.open - {op}, ended := e.ended + {op})
  }

  /** No answer comes, although the server may have recorded the end. */
  function DoNoAnswer(e: Edge, w: nat, recorded: bool): Edge
    requires w < |e.workers| && e.workers[w].Done?
  {
    var x := e.workers[w];
    Put(e, w, Leaving(x.op, x.entered)).(ended := if recorded then e.ended + {x.op} else e.ended)
  }

  /** The first half of `clearBundleReceipt`: is the receipt this operation's? If it cannot be read it stays. */
  function DoClearRead(e: Edge, w: nat, readable: bool): Edge
    requires w < |e.workers| && (e.workers[w].Acked? || e.workers[w].Failing?)
  {
    var x := e.workers[w];
    var failed := x.Failing?;
    var entered := failed || x.entered;
    if x.op.bundle && readable && e.receipt == Some(x.op) then Put(e, w, Clearing(x.op, failed, entered))
    else Put(e, w, AfterClear(x.op, failed, entered))
  }

  /** The second half removes whatever receipt is there by now; a failure is ignored. */
  function DoClearRemove(e: Edge, w: nat, works: bool): Edge
    requires w < |e.workers| && e.workers[w].Clearing?
  {
    var x := e.workers[w];
    Put(e, w, AfterClear(x.op, x.failed, x.entered)).(receipt := if works then None else e.receipt)
  }

  function AfterClear(op: Op, failed: bool, entered: bool): Worker {
    if failed then Done(op, entered) else Leaving(op, entered)
  }

  function AllIdle(n: nat): seq<Worker> {
    seq(n, i => Idle)
  }

  /**
   One step. The server leases no operation it is done with and accepts no end of one; it may give
   one up on its own. A unit at work survives a crash.
   */
  function Apply(e: Edge, step: Step): Edge {
    if step.Crash? then e.(workers := AllIdle(|e.workers|), writer := false, readers := 0)
    else if step.Expire? then e.(ended := e.ended + {step.op})
    else if step.UnitEnds? then e.(running := e.running - {step.op})
    else if step.w >= |e.workers| then e
    else
      var x := e.workers[step.w];
      match step
      case Lease(w, op) => if x.Idle? && op !in e.ended then Put(e, w, Waiting(op)) else e
      case Acquire(w) => if x.Waiting? then DoAcquire(e, w) else e
      case Deny(w) => if x.Waiting? then Put(e, w, Done(x.op, false)) else e
      case ReadReceipt(w, readable) => if x.Entered? then DoRead(e, w, readable) else e
      case WriteReceipt(w, linking) => if x.Fresh? then DoWrite(e, w, linking) else e
      case Start(w) => if x.Written? then DoStart(e, w) else e
      case StartReturns(w, result) => if x.Starting? then DoReturn(e, w, result) else e
      case Acknowledge(w) => if x.Done? && x.op !in e.ended then DoAcknowledge(e, w) else e
      case NoAnswer(w, recorded) => if x.Done? then DoNoAnswer(e, w, recorded) else e
      case ClearRead(w, readable) => if x.Acked? || x.Failing? then DoClearRead(e, w, readable) else e
      case ClearRemove(w, works) => if x.Clearing? then DoClearRemove(e, w, works) else e
      case Release(w) => if x.Leaving? then DoRelease(e, w) else e
  }

  function ApplyAll(e: Edge, steps: seq<Step>): Edge {
    if steps == [] then e else Apply(ApplyAll(e, steps[..|steps| - 1]), steps[|steps| - 1])
  }

  function Initial(n: nat): Edge {
    Edge(AllIdle(n), false, 0, None, {}, {}, {}, {}, {}, {}, {}, {})
  }

  // ----------------------------------------------------------------- the gate

  function Count(ws: seq<Worker>, hold: Hold): nat {
    if ws == [] then 0 else (if Holds(ws[|ws| - 1]) == hold then 1 else 0) + Count(ws[..|ws| - 1], hold)
  }

  lemma {:induction false} CountUpdate(ws: seq<Worker>, i: nat, x: Worker, hold: Hold)
    requires i < |ws|
    ensures Count(ws[i := x], hold) + (if Holds(ws[i]) == hold then 1 else 0)
         == Count(ws, hold) + (if Holds(x) == hold then 1 else 0)
  {
    hide Holds;
    var n := |ws| - 1;
    if i == n {
      assert ws[i := x][..n] == ws[..n];
    } else {
      assert ws[i := x][..n] == ws[..n][i := x];
      CountUpdate(ws[..n], i, x, hold);
    }
  }

  lemma {:induction false} CountPositive(ws: seq<Worker>, i: nat, hold: Hold)
    requires i < |ws| && Holds(ws[i]) == hold
    ensures Count(ws, hold) >= 1
  {
    if i < |ws| - 1 { CountPositive(ws[..|ws| - 1], i, hold); }
  }

  lemma {:induction false} CountTwo(ws: seq<Worker>, i: nat, j: nat, hold: Hold)
    requires i < j < |ws| && Holds(ws[i]) == Holds(ws[j]) == hold
    ensures Count(ws, hold) >= 2
  {
    if j == |ws| - 1 { CountPositive(ws[..j], i, hold); }
    else { CountTwo(ws[..|ws| - 1], i, j, hold); }
  }

  lemma {:induction false} CountNone(ws: seq<Worker>, hold: Hold)
    requires forall i | 0 <= i < |ws| :: Holds(ws[i]) != hold
    ensures Count(ws, hold) == 0
  {
    if ws != [] { CountNone(ws[..|ws| - 1], hold); }
  }

  /** The lock is held by exactly the workers between taking and giving it back, and a writer is alone. */
  ghost predicate GateOk(e: Edge) {
    && e.readers == Count(e.workers, Shared)
    && Count(e.workers, Exclusive) == (if e.writer then 1 else 0)
    && (e.writer ==> e.readers == 0)
  }

  lemma PutSameHold(e: Edge, w: nat, x: Worker)
    requires GateOk(e) && w < |e.workers| && Holds(x) == Holds(e.workers[w])
    ensures GateOk(Put(e, w, x))
  {
    CountUpdate(e.workers, w, x, Shared);
    CountUpdate(e.workers, w, x, Exclusive);
    hide Holds, Count;
  }

  /** A step that neither takes nor gives back the gate changes one worker, and not what it is owed. */
  ghost predicate Passive(e: Edge, f: Edge, w: nat)
    requires w < |e.workers|
  {
    && |f.workers| == |e.workers| && f.workers == e.workers[w := f.workers[w]]
    && Holds(f.workers[w]) == Holds(e.workers[w]) && f.writer == e.writer && f.readers == e.readers
  }

  /** The steps of an executor with the receipt and the updater. */
  predicate TouchesReceipt(step: Step) {
    step.WriteReceipt? || step.Start? || step.StartReturns? || step.ClearRead? || step.ClearRemove?
  }

  lemma PassiveReceiptStep(e: Edge, step: Step)
    requires TouchesReceipt(step) && step.w < |e.workers|
    ensures Passive(e, Apply(e, step), step.w)
  {
  }

  lemma PassiveOtherStep(e: Edge, step: Step)
    requires !TouchesReceipt(step) && OfWorker(step) && !step.Acquire? && !step.Release? && step.w < |e.workers|
    ensures Passive(e, Apply(e, step), step.w)
  {
  }

  lemma GateTaken(e: Edge, w: nat)
    requires GateOk(e) && w < |e.workers| && e.workers[w].Waiting?
    ensures GateOk(DoAcquire(e, w))
  {
    var f := DoAcquire(e, w);
    CountUpdate(e.workers, w, f.workers[w], Shared);
    CountUpdate(e.workers, w, f.workers[w], Exclusive);
    assert f != e ==> f.workers == e.workers[w := f.workers[w]];
  }

  /** Exactly when a waiting worker gets the gate, and what it takes. */
  lemma AcquireIff(e: Edge, w: nat)
    requires w < |e.workers| && e.workers[w].Waiting?
    ensures var f, op := Apply(e, Acquire(w)), e.workers[w].op;
            var free := !e.writer && (op.bundle ==> e.readers == 0);
            && f.workers[w] == (if free then Entered(op) else Waiting(op))
            && f.writer == (e.writer || (free && op.bundle))
            && f.readers == e.readers + (if free && !op.bundle then 1 else 0)
  {
  }

  /** What an executor makes of the receipt: nothing is written over one, and only its absence leads to a start. */
  lemma ReceiptMeans(e: Edge, w: nat, readable: bool, linking: Linking)
    requires w < |e.workers|
    ensures e.workers[w].Entered? ==>
              var f, op := Apply(e, ReadReceipt(w, readable)), e.workers[w].op;
              && f.receipt == e.receipt
              && f.workers[w] == (if op.bundle && readable && e.receipt.None? then Fresh(op) else Done(op, true))
    ensures e.workers[w].Fresh? ==>
              var f, op := Apply(e, WriteReceipt(w, linking)), e.workers[w].op;
              && f.receipt == (if e.receipt.None? && !linking.NotLinked? then Some(op) else e.receipt)
              && f.workers[w] == (if e.receipt.None? && linking.Linked? then Written(op) else Done(op, true))
  {
  }

  /** What is kept of a start: only one that definitely failed is cleared away by its own executor. */
  lemma StartMeans(e: Edge, w: nat, result: StartResult)
    requires w < |e.workers| && e.workers[w].Starting?
    ensures var f, op := Apply(e, StartReturns(w, result)), e.workers[w].op;
            && f.receipt == e.receipt
            && f.workers[w] == (if result.DefinitelyFails? then Failing(op) else Done(op, true))
            && f.open == (if result.DefinitelyFails? then e.open - {op} else e.open)
            && f.started == (if result.DefinitelyFails? || result.NeverRan? then e.started - {op} else e.started)
            && f.running == (if result.Unclear? then e.running else e.running - {op})
  {
  }

  /** A release gives back a lock that is held. */
  lemma GateGiven(e: Edge, w: nat)
    requires GateOk(e) && w < |e.workers| && e.workers[w].Leaving?
    ensures GateOk(DoRelease(e, w))
    ensures e.workers[w].entered ==> if e.workers[w].op.bundle then e.writer else e.readers > 0
  {
    if e.workers[w].entered { CountPositive(e.workers, w, Need(e.workers[w].op)); }
    CountUpdate(e.workers, w, Idle, Shared);
    CountUpdate(e.workers, w, Idle, Exclusive);
  }

  lemma GateStep(e: Edge, step: Step)
    requires GateOk(e)
    ensures GateOk(Apply(e, step)) && |Apply(e, step).workers| == |e.workers|
  {
    var f := Apply(e, step);
    if step.Crash? {
      CountNone(f.workers, Shared);
      CountNone(f.workers, Exclusive);
    } else if OfWorker(step) && step.w < |e.workers| && f != e {
      if step.Acquire? { GateTaken(e, step.w); }
      else if step.Release? { GateGiven(e, step.w); }
      else {
        if TouchesReceipt(step) { PassiveReceiptStep(e, step); } else { PassiveOtherStep(e, step); }
        hide Apply, Holds;
        PutSameHold(e, step.w, f.workers[step.w]);
      }
    }
  }

  lemma {:induction false} GateAlways(n: nat, steps: seq<Step>)
    ensures GateOk(ApplyAll(Initial(n), steps)) && |ApplyAll(Initial(n), steps).workers| == n
  {
    if steps == [] {
      CountNone(Initial(n).workers, Shared);
      CountNone(Initial(n).workers, Exclusive);
    } else {
      GateAlways(n, steps[..|steps| - 1]);
      GateStep(ApplyAll(Initial(n), steps[..|steps| - 1]), steps[|steps| - 1]);
    }
  }

  /** Beside an exclusive holder nobody holds the gate. */
  lemma AloneWhenExclusive(e: Edge, i: nat, j: nat)
    requires GateOk(e) && i < |e.workers| && j < |e.workers| && i != j && Holds(e.workers[i]).Exclusive?
    ensures e.writer && Holds(e.workers[j]).Free?
  {
    CountPositive(e.workers, i, Exclusive);
    if Holds(e.workers[j]).Shared? { CountPositive(e.workers, j, Shared); }
    if Holds(e.workers[j]).Exclusive? {
      CountTwo(e.workers, if i < j then i else j, if i < j then j else i, Exclusive);
    }
  }

  /**
   The gate is safe in every reachable state, for any number of workers. A worker that entered for a
   bundle operation has the lock to itself, from before its effect, through the acknowledgement of
   the end, until it leaves; one that entered for an ordinary operation keeps every bundle operation
   out as long; the reader count is the number of the latter; and what is given back is held.
   */
  lemma GateSafety(n: nat, steps: seq<Step>, i: nat, j: nat)
    requires i < n && j < n && i != j
    ensures var e := ApplyAll(Initial(n), steps);
            && |e.workers| == n
            && e.readers == Count(e.workers, Shared) && (e.writer <==> Count(e.workers, Exclusive) == 1)
            && (Holds(e.workers[i]).Exclusive? ==> e.writer && e.readers == 0 && Holds(e.workers[j]).Free?)
            && (Holds(e.workers[i]).Shared? ==> !e.writer && e.readers > 0 && !Holds(e.workers[j]).Exclusive?)
            && (e.workers[i].Leaving? && e.workers[i].entered ==>
                  if e.workers[i].op.bundle then e.writer else e.readers > 0)
  {
    GateAlways(n, steps);
    var e := ApplyAll(Initial(n), steps);
    if Holds(e.workers[i]).Exclusive? { AloneWhenExclusive(e, i, j); }
    if Holds(e.workers[i]).Shared? {
      CountPositive(e.workers, i, Shared);
      if Holds(e.workers[j]).Exclusive? { AloneWhenExclusive(e, j, i); }
    }
    if e.workers[i].Leaving? { GateGiven(e, i); }
  }

  // -------------------------------------------------------------- the receipt

  /** What the server sees to: the end of a bundle operation is not accepted from a worker that was denied the gate. */
  predicate Accepted(e: Edge, step: Step) {
    step.Acknowledge? && step.w < |e.workers| && e.workers[step.w].Done? && e.workers[step.w].op.bundle ==>
      e.workers[step.w].entered
  }

  predicate AllAccepted(e: Edge, steps: seq<Step>) {
    steps != [] ==>
      AllAccepted(e, steps[..|steps| - 1]) && Accepted(ApplyAll(e, steps[..|steps| - 1]), steps[|steps| - 1])
  }

  /** What a worker may rely on about the receipt and the record. */
  ghost predicate WorkerOk(e: Edge, w: Worker) {
    match w
    case Fresh(op) => op.bundle && e.receipt.None?
    case Written(op) => op.bundle && e.receipt == Some(op) && op !in e.open
    case Starting(op) => op.bundle && e.receipt == Some(op) && op in e.open
    case Failing(op) => op.bundle && e.receipt == Some(op) && op !in e.open
    case Clearing(op, failed, entered) => op.bundle && entered && e.receipt == Some(op) && op !in e.open
    case Acked(op, entered) => op.bundle ==> entered && op !in e.open
    case _ => true
  }

  /** An open operation's receipt is there; no start was a second one or under another's receipt. */
  ghost predicate ReceiptOk(e: Edge) {
    && (forall op | op in e.open :: e.receipt == Some(op)) && (e.receipt.Some? ==> e.receipt.value.bundle)
    && e.twice == {} && e.crossed == {}
  }

  ghost predicate WorkersOk(e: Edge) {
    forall i | 0 <= i < |e.workers| :: WorkerOk(e, e.workers[i])
  }

  ghost predicate Invariant(e: Edge) {
    GateOk(e) && WorkersOk(e) && ReceiptOk(e)
  }

  /** What a worker without the exclusive gate relies on does not mention the receipt. */
  lemma FreeOfReceipt(e: Edge, f: Edge, w: Worker)
    requires WorkerOk(e, w) && !Holds(w).Exclusive?
    ensures WorkerOk(f, w)
  {
  }

  /**
   A step of one worker that leaves its worker in order, and touches the receipt and the record only
   with the exclusive gate.
   */
  ghost predicate Orderly(e: Edge, f: Edge, w: nat)
    requires w < |e.workers|
  {
    && ReceiptOk(f) && |f.workers| == |e.workers| && f.workers == e.workers[w := f.workers[w]]
    && WorkerOk(f, f.workers[w])
    && (Holds(e.workers[w]).Exclusive? || (f.receipt == e.receipt && f.open == e.open))
  }

  lemma OrderlyKeeps(e: Edge, f: Edge, w: nat)
    requires GateOk(e) && WorkersOk(e) && w < |e.workers| && Orderly(e, f, w)
    ensures WorkersOk(f)
  {
    hide GateOk, ReceiptOk, WorkerOk, Holds;
    forall i | 0 <= i < |f.workers| ensures WorkerOk(f, f.workers[i]) {
      if i != w {
        assert f.workers[i] == e.workers[i] && WorkerOk(e, e.workers[i]);
        if Holds(e.workers[w]).Exclusive? {
          AloneWhenExclusive(e, w, i);
          FreeOfReceipt(e, f, e.workers[i]);
        } else {
          SameReceipt(e, f, e.workers[i]);
        }
      }
    }
  }

  lemma SameReceipt(e: Edge, f: Edge, w: Worker)
    requires WorkerOk(e, w) && f.receipt == e.receipt && f.open == e.open
    ensures WorkerOk(f, w)
  {
  }

  lemma ReceiptStep(e: Edge, step: Step)
    requires TouchesReceipt(step)
    requires step.w < |e.workers| && ReceiptOk(e) && WorkerOk(e, e.workers[step.w])
    ensures Orderly(e, Apply(e, step), step.w)
  {
    if step.ClearRead? || step.ClearRemove? { ClearStep(e, step); } else { UpdaterStep(e, step); }
    hide Apply, Orderly;
  }

  lemma ClearStep(e: Edge, step: Step)
    requires step.ClearRead? || step.ClearRemove?
    requires step.w < |e.workers| && ReceiptOk(e) && WorkerOk(e, e.workers[step.w])
    ensures Orderly(e, Apply(e, step), step.w)
  {
  }

  lemma UpdaterStep(e: Edge, step: Step)
    requires step.WriteReceipt? || step.Start? || step.StartReturns?
    requires step.w < |e.workers| && ReceiptOk(e) && WorkerOk(e, e.workers[step.w])
    ensures Orderly(e, Apply(e, step), step.w)
  {
  }

  lemma OtherStep(e: Edge, step: Step)
    requires !TouchesReceipt(step) && OfWorker(step)
    requires step.w < |e.workers| && Accepted(e, step) && ReceiptOk(e) && WorkerOk(e, e.workers[step.w])
    ensures Orderly(e, Apply(e, step), step.w)
  {
  }

  lemma StepKeepsInvariant(e: Edge, step: Step)
    requires Invariant(e) && Accepted(e, step)
    ensures Invariant(Apply(e, step))
  {
    var f := Apply(e, step);
    GateStep(e, step);
    if OfWorker(step) && step.w < |e.workers| {
      assert WorkerOk(e, e.workers[step.w]);
      if TouchesReceipt(step) { ReceiptStep(e, step); } else { OtherStep(e, step); }
      hide Apply, GateOk, WorkersOk, WorkerOk, ReceiptOk;
      OrderlyKeeps(e, f, step.w);
    } else {
      hide GateOk;
    }
  }

  /** For any number of workers, every schedule and every crash. */
  lemma {:induction false} AlwaysInvariant(n: nat, steps: seq<Step>)
    requires AllAccepted(Initial(n), steps)
    ensures Invariant(ApplyAll(Initial(n), steps))
  {
    if steps == [] {
      GateAlways(n, steps);
    } else {
      AlwaysInvariant(n, steps[..|steps| - 1]);
      StepKeepsInvariant(ApplyAll(Initial(n), steps[..|steps| - 1]), steps[|steps| - 1]);
    }
  }

  /**
   The updater is started at most once: as long as a start has not definitely failed and its end
   is not acknowledged, its operation keeps its receipt, no second start of it happens, and no
   other operation is started.
   */
  lemma AtMostOneStart(n: nat, steps: seq<Step>, w: nat)
    requires AllAccepted(Initial(n), steps)
    ensures var e := ApplyAll(Initial(n), steps);
            && e.twice == {} && e.crossed == {}
            && (forall op | op in e.open :: e.receipt == Some(op))
            && (w < |e.workers| && e.workers[w].Written? ==> e.open == {} && e.receipt == Some(e.workers[w].op))
  {
    AlwaysInvariant(n, steps);
    var e := ApplyAll(Initial(n), steps);
    if w < |e.workers| && e.workers[w].Written? { assert WorkerOk(e, e.workers[w]); }
  }

  // ------------------------------------- why a denied worker must not acknowledge

  ghost predicate Reached(e: Edge) {
    exists steps :: ApplyAll(Initial(3), steps) == e
  }

  lemma Do(e: Edge, step: Step, f: Edge)
    requires Reached(e) && Apply(e, step) == f
    ensures Reached(f)
  {
    var steps :| ApplyAll(Initial(3), steps) == e;
    var more := steps + [step];
    assert more[..|more| - 1] == steps;
    assert ApplyAll(Initial(3), more) == f;
  }

  const FIRST := Op(1, true)
  const SECOND := Op(2, true)

  /** Three workers, the gate held exclusively or not at all. */
  function Three(workers: seq<Worker>, writer: bool, receipt: Option<Op>, open: set<Op>, record: Record): Edge {
    Edge(workers, writer, 0, receipt, open, {}, {}, record.started, {}, record.ended, record.running, {})
  }

  datatype Record = Record(started: set<Op>, ended: set<Op>, running: set<Op>)

  lemma AtRest()
    ensures Reached(Three([Idle, Idle, Idle], false, None, {}, Record({}, {}, {})))
  {
    assert ApplyAll(Initial(3), []) == Initial(3);
    assert Initial(3).workers == [Idle, Idle, Idle];
  }

  /** The state after a worker at rest has taken the free gate for a bundle operation and started the updater. */
  function AfterStart(e: Edge, w: nat, op: Op): Edge
    requires w < |e.workers|
  {
    Put(e, w, Starting(op)).(
      writer := true, receipt := Some(op), open := e.open + {op}, started := e.started + {op},
      running := e.running + {op}, twice := if op in e.open then e.twice + {op} else e.twice,
      overlap := if e.running <= {op} then e.overlap else e.overlap + {op})
  }

  function StartSteps(w: nat, op: Op): seq<Step> {
    [Lease(w, op), Acquire(w), ReadReceipt(w, true), WriteReceipt(w, Linked), Start(w)]
  }

  /** A worker at rest, with the gate free and no receipt, can start any operation the server is not done with. */
  lemma CanStart(e: Edge, w: nat, op: Op)
    requires w < |e.workers| && e.workers[w] == Idle && op.bundle && op !in e.ended
    requires !e.writer && e.readers == 0 && e.receipt.None?
    ensures ApplyAll(e, StartSteps(w, op)) == AfterStart(e, w, op)
  {
    var written := Put(e, w, Written(op)).(writer := true, receipt := Some(op));
    CanWrite(e, w, op);
    assert Apply(written, Start(w)) == AfterStart(e, w, op);
    hide Apply, AfterStart;
    var steps := [Lease(w, op), Acquire(w), ReadReceipt(w, true), WriteReceipt(w, Linked)];
    ApplyConcat(e, steps, [Start(w)]);
    assert StartSteps(w, op) == steps + [Start(w)];
    assert [Start(w)][..0] == [] && ApplyAll(written, [Start(w)]) == Apply(written, Start(w));
  }

  lemma CanWrite(e: Edge, w: nat, op: Op)
    requires w < |e.workers| && e.workers[w] == Idle && op.bundle && op !in e.ended
    requires !e.writer && e.readers == 0 && e.receipt.None?
    ensures ApplyAll(e, [Lease(w, op), Acquire(w), ReadReceipt(w, true), WriteReceipt(w, Linked)])
         == Put(e, w, Written(op)).(writer := true, receipt := Some(op))
  {
    var f := Put(e, w, Waiting(op));
    assert Apply(e, Lease(w, op)) == f;
    var g := Put(e, w, Entered(op)).(writer := true);
    assert Apply(f, Acquire(w)) == g;
    var h := Put(e, w, Fresh(op)).(writer := true);
    assert Apply(g, ReadReceipt(w, true)) == h;
    assert Apply(h, WriteReceipt(w, Linked)) == Put(e, w, Written(op)).(writer := true, receipt := Some(op));
    hide Apply;
    FourSteps(e, Lease(w, op), Acquire(w), ReadReceipt(w, true), WriteReceipt(w, Linked));
  }

  lemma {:induction false} ApplyConcat(e: Edge, a: seq<Step>, b: seq<Step>)
    ensures ApplyAll(e, a + b) == ApplyAll(ApplyAll(e, a), b)
  {
    hide Apply;
    if b == [] {
      assert a + b == a;
    } else {
      assert (a + b)[..|a + b| - 1] == a + b[..|b| - 1];
      ApplyConcat(e, a, b[..|b| - 1]);
    }
  }

  lemma StartRun(e: Edge, w: nat, op: Op)
    requires Reached(e) && w < |e.workers| && e.workers[w] == Idle && op.bundle && op !in e.ended
    requires !e.writer && e.readers == 0 && e.receipt.None?
    ensures Reached(AfterStart(e, w, op))
  {
    CanStart(e, w, op);
    hide AfterStart;
    var steps :| ApplyAll(Initial(3), steps) == e;
    ApplyConcat(Initial(3), steps, StartSteps(w, op));
  }

  /** The start definitely fails, its receipt is cleared, and the worker leaves without an answer. */
  lemma FailRun(e: Edge, w: nat, op: Op)
    requires Reached(e) && w < |e.workers| && e.workers[w] == Starting(op) && op.bundle && e.receipt == Some(op)
    ensures Reached(
              Put(e, w, Idle).(
              writer := false, receipt := None, open := e.open - {op}, started := e.started - {op},
              running := e.running - {op}))
  {
    hide Reached;
    var f := Put(e, w, Failing(op)).(open := e.open - {op}, started := e.started - {op}, running := e.running - {op});
    Do(e, StartReturns(w, DefinitelyFails), f);
    var g := Put(f, w, Clearing(op, true, true));
    Do(f, ClearRead(w, true), g);
    var h := Put(f, w, Done(op, true)).(receipt := None);
    assert Put(g, w, Done(op, true)).workers == h.workers;
    Do(g, ClearRemove(w, true), h);
    LeaveRun(h, w, op);
    assert Put(h, w, Idle).workers == Put(e, w, Idle).workers;
  }

  /** A worker whose executor has ended leaves without an answer. */
  lemma LeaveRun(e: Edge, w: nat, op: Op)
    requires Reached(e) && w < |e.workers| && e.workers[w] == Done(op, true) && op.bundle
    ensures Reached(Put(e, w, Idle).(writer := false))
  {
    hide Reached;
    var f := Put(e, w, Leaving(op, true));
    Do(e, NoAnswer(w, false), f);
    assert Put(f, w, Idle).workers == Put(e, w, Idle).workers;
    Do(f, Release(w), Put(e, w, Idle).(writer := false));
  }

  /** A worker that is denied the gate acknowledges a cancellation and finds its operation's receipt. */
  lemma LapseRun(e: Edge, w: nat, op: Op)
    requires Reached(e) && w < |e.workers| && e.workers[w] == Idle && op.bundle && e.receipt == Some(op)
    requires op !in e.ended
    ensures Reached(Put(e, w, Clearing(op, false, false)).(open := e.open - {op}, ended := e.ended + {op}))
  {
    hide Reached;
    var f := Put(e, w, Waiting(op));
    Do(e, Lease(w, op), f);
    var g := Put(e, w, Done(op, false));
    Do(f, Deny(w), g);
    var h := Put(e, w, Acked(op, false)).(open := e.open - {op}, ended := e.ended + {op});
    Do(g, Acknowledge(w), h);
    Do(h, ClearRead(w, true), Put(e, w, Clearing(op, false, false)).(open := e.open - {op}, ended := e.ended + {op}));
  }

  const LAPSED := Clearing(FIRST, false, false)

  /** The receipt of a started operation has been removed by a worker that looked at another one. */
  lemma ReceiptLost()
    ensures Reached(
              Three([Idle, Leaving(FIRST, false), Idle], false, None, {SECOND}, Record({SECOND}, {FIRST}, {SECOND})))
  {
    AtRest();
    hide Reached, Apply;
    StartRun(Three([Idle, Idle, Idle], false, None, {}, Record({}, {}, {})), 2, FIRST);
    var e := Three([Idle, Idle, Starting(FIRST)], true, Some(FIRST), {FIRST}, Record({FIRST}, {}, {FIRST}));
    assert [Idle, Idle, Idle][2 := Starting(FIRST)] == e.workers && {} + {FIRST} == {FIRST};
    LapseRun(e, 1, FIRST);
    var f := Three([Idle, LAPSED, Starting(FIRST)], true, Some(FIRST), {}, Record({FIRST}, {FIRST}, {FIRST}));
    assert e.workers[1 := LAPSED] == f.workers && {FIRST} - {FIRST} == {};
    FailRun(f, 2, FIRST);
    assert f.workers[2 := Idle] == [Idle, LAPSED, Idle] && {} - {FIRST} == {};
    LoseRun();
  }

  lemma LoseRun()
    requires Reached(Three([Idle, LAPSED, Idle], false, None, {}, Record({}, {FIRST}, {})))
    ensures Reached(
              Three([Idle, Leaving(FIRST, false), Idle], false, None, {SECOND}, Record({SECOND}, {FIRST}, {SECOND})))
  {
    hide Reached;
    var record := Record({SECOND}, {FIRST}, {SECOND});
    StartRun(Three([Idle, LAPSED, Idle], false, None, {}, Record({}, {FIRST}, {})), 2, SECOND);
    var e := Three([Idle, LAPSED, Starting(SECOND)], true, Some(SECOND), {SECOND}, record);
    assert [Idle, LAPSED, Idle][2 := Starting(SECOND)] == e.workers && {} + {SECOND} == {SECOND};
    var f := Three([Idle, LAPSED, Done(SECOND, true)], true, Some(SECOND), {SECOND}, record);
    Do(e, StartReturns(2, Unclear), f);
    LeaveRun(f, 2, SECOND);
    var g := Three([Idle, LAPSED, Idle], false, Some(SECOND), {SECOND}, record);
    assert f.workers[2 := Idle] == g.workers;
    Do(g, ClearRemove(1, true), Three([Idle, Leaving(FIRST, false), Idle], false, None, {SECOND}, record));
  }

  /**
   Without what the server sees to, the promise fails: a worker that was denied the gate
   acknowledges a cancellation, removes a receipt that is no longer its own, and the second
   operation is started twice.
   */
  lemma DeniedAcknowledgementStartsTwice()
    ensures exists steps :: SECOND in ApplyAll(Initial(3), steps).twice
  {
    ReceiptLost();
    var e := Three([Idle, Leaving(FIRST, false), Idle], false, None, {SECOND}, Record({SECOND}, {FIRST}, {SECOND}));
    StartRun(e, 0, SECOND);
    var steps :| ApplyAll(Initial(3), steps) == AfterStart(e, 0, SECOND);
    hide ApplyAll;
    assert SECOND in ApplyAll(Initial(3), steps).twice;
  }

  // ------------------------------------------------- a receipt that is left behind

  /**
   The receipt names an operation that is not leased again, nobody works on it, and nobody has got
   past the look at the receipt.
   */
  ghost predicate LeftBehind(e: Edge, op: Op) {
    && e.receipt == Some(op) && op in e.ended
    && forall i | 0 <= i < |e.workers| :: Bystander(e.workers[i], op)
  }

  ghost predicate Bystander(w: Worker, op: Op) {
    w.Idle? || ((w.Waiting? || w.Entered? || w.Done? || w.Acked? || w.Leaving?) && w.op != op)
  }

  /** A receipt left behind stays, and blocks all bundle operations: no updater is started any more. */
  lemma {:induction false} LeftBehindBlocks(e: Edge, steps: seq<Step>, op: Op)
    requires LeftBehind(e, op)
    ensures var f := ApplyAll(e, steps);
            && LeftBehind(f, op) && f.started <= e.started && f.open <= e.open
            && forall i | 0 <= i < |f.workers| :: !f.workers[i].Written? && !f.workers[i].Starting?
  {
    if steps != [] {
      LeftBehindBlocks(e, steps[..|steps| - 1], op);
      LeftBehindStep(ApplyAll(e, steps[..|steps| - 1]), steps[|steps| - 1], op);
    }
  }

  lemma LeftBehindStep(e: Edge, step: Step, op: Op)
    requires LeftBehind(e, op)
    ensures LeftBehind(Apply(e, step), op) && Apply(e, step).started <= e.started && Apply(e, step).open <= e.open
  {
    var f := Apply(e, step);
    if OfWorker(step) && step.w < |e.workers| {
      BystanderStep(e, step, op);
      hide Apply, Bystander;
    }
  }

  /** What a worker beside a receipt left behind may do. */
  lemma BystanderStep(e: Edge, step: Step, op: Op)
    requires OfWorker(step) && step.w < |e.workers| && Bystander(e.workers[step.w], op)
    requires e.receipt == Some(op) && op in e.ended
    ensures var f := Apply(e, step);
            && |f.workers| == |e.workers| && f.workers == e.workers[step.w := f.workers[step.w]]
            && Bystander(f.workers[step.w], op) && f.receipt == e.receipt && e.ended <= f.ended
            && f.started <= e.started && f.open <= e.open
  {
  }

  /** The server is done with the operation the receipt names. */
  predicate Outlived(e: Edge) {
    e.receipt.Some? && e.receipt.value in e.ended
  }

  /** A worker that got the gate and is about to clear the receipt of the operation away. */
  predicate Sweeper(w: Worker, op: Op) {
    (w.Failing? || ((w.Acked? || w.Clearing?) && w.entered)) && w.op == op
  }

  predicate HasSweeper(e: Edge, op: Op) {
    exists i | 0 <= i < |e.workers| :: Sweeper(e.workers[i], op)
  }

  /** A receipt the server is done with has somebody to clear it away. */
  predicate Swept(e: Edge) {
    Outlived(e) ==> HasSweeper(e, e.receipt.value)
  }

  /**
   The step leaves a receipt to nobody. A crash comes before the removal; the server gives the
   operation up, or records its end and the answer is lost; a receipt is written for an operation
   the server is already done with; or the receipt cannot be read or removed.
   */
  predicate Leaves(e: Edge, step: Step) {
    match step
    case Crash => Outlived(e)
    case Expire(op) => e.receipt == Some(op) && op !in e.ended && !HasSweeper(e, op)
    case NoAnswer(w, recorded) =>
      && recorded && w < |e.workers| && e.workers[w].Done? && e.receipt == Some(e.workers[w].op)
      && e.workers[w].op !in e.ended && !HasSweeper(e, e.workers[w].op)
    case WriteReceipt(w, linking) =>
      && w < |e.workers| && e.workers[w].Fresh? && e.workers[w].op in e.ended
      && e.receipt.None? && !linking.NotLinked?
    case ClearRead(w, readable) =>
      && !readable && w < |e.workers| && (e.workers[w].Acked? || e.workers[w].Failing?)
      && Outlived(e) && e.receipt == Some(e.workers[w].op)
    case ClearRemove(w, works) => !works && w < |e.workers| && e.workers[w].Clearing? && Outlived(e)
    case _ => false
  }

  predicate NoneLeaves(e: Edge, steps: seq<Step>) {
    steps != [] ==>
      NoneLeaves(e, steps[..|steps| - 1]) && !Leaves(ApplyAll(e, steps[..|steps| - 1]), steps[|steps| - 1])
  }

  lemma SweptStep(e: Edge, step: Step)
    requires Invariant(e) && Swept(e) && Accepted(e, step) && !Leaves(e, step)
    ensures Swept(Apply(e, step))
  {
    var f := Apply(e, step);
    if OfWorker(step) && step.w < |e.workers| && f != e {
      assert WorkerOk(e, e.workers[step.w]);
      if Outlived(e) {
        var i :| 0 <= i < |e.workers| && Sweeper(e.workers[i], e.receipt.value);
        if i != step.w {
          AloneWhenExclusive(e, i, step.w);
          SweptBeside(e, step, i);
        } else {
          SweptOwn(e, step);
        }
      } else {
        SweptNow(e, step);
      }
    }
  }

  /** A step of a worker without the exclusive gate, beside the one that sweeps. */
  lemma SweptBeside(e: Edge, step: Step, i: nat)
    requires OfWorker(step) && step.w < |e.workers| && i < |e.workers| && i != step.w && e.writer
    requires Outlived(e) && Sweeper(e.workers[i], e.receipt.value) && Holds(e.workers[step.w]).Free?
    requires WorkerOk(e, e.workers[step.w])
    ensures Swept(Apply(e, step))
  {
    var f := Apply(e, step);
    assert f.receipt == e.receipt && f.workers[i] == e.workers[i];
  }

  lemma SweptOwn(e: Edge, step: Step)
    requires OfWorker(step) && step.w < |e.workers| && Outlived(e) && Sweeper(e.workers[step.w], e.receipt.value)
    requires e.receipt.value.bundle && !Leaves(e, step)
    ensures Swept(Apply(e, step))
  {
    var f := Apply(e, step);
    assert f.receipt.Some? ==> Sweeper(f.workers[step.w], f.receipt.value);
  }

  /** A step after which the server is done with the receipt's operation is an acknowledgement, or beside a sweeper. */
  lemma SweptNow(e: Edge, step: Step)
    requires OfWorker(step) && step.w < |e.workers| && !Outlived(e) && !Leaves(e, step)
    requires ReceiptOk(e) && Accepted(e, step) && WorkerOk(e, e.workers[step.w])
    ensures Swept(Apply(e, step))
  {
    var f := Apply(e, step);
    if Outlived(f) && step.NoAnswer? {
      var i :| 0 <= i < |e.workers| && Sweeper(e.workers[i], e.receipt.value);
      assert i != step.w && f.workers[i] == e.workers[i];
    } else {
      assert Outlived(f) ==> Sweeper(f.workers[step.w], f.receipt.value);
    }
  }

  /** As long as no step leaves one, every receipt the server is done with has a worker that will clear it away. */
  lemma {:induction false} NothingLeftBehind(n: nat, steps: seq<Step>, op: Op)
    requires AllAccepted(Initial(n), steps) && NoneLeaves(Initial(n), steps)
    ensures Swept(ApplyAll(Initial(n), steps)) && !LeftBehind(ApplyAll(Initial(n), steps), op)
  {
    if steps != [] {
      NothingLeftBehind(n, steps[..|steps| - 1], op);
      AlwaysInvariant(n, steps[..|steps| - 1]);
      SweptStep(ApplyAll(Initial(n), steps[..|steps| - 1]), steps[|steps| - 1]);
    }
  }

  /** And any step that leaves one does so for good, if the process crashes before somebody happens to clear it. */
  lemma LeavingStepLeaves(e: Edge, step: Step)
    requires Leaves(e, step)
    ensures var f := Apply(e, step); f.receipt.Some? && LeftBehind(Apply(f, Crash), f.receipt.value)
  {
  }

  /** No crash is needed: a removal that fails is ignored. */
  lemma IgnoredRemovalLeaves(e: Edge, w: nat, op: Op)
    requires w < |e.workers| && e.workers[w] == Acked(op, true) && op.bundle && e.receipt == Some(op) && op in e.ended
    requires forall i | 0 <= i < |e.workers| && i != w :: Bystander(e.workers[i], op)
    ensures LeftBehind(Apply(Apply(Apply(e, ClearRead(w, true)), ClearRemove(w, false)), Release(w)), op)
  {
    var f := Put(e, w, Clearing(op, false, true));
    assert Apply(e, ClearRead(w, true)) == f;
    var g := Put(e, w, Leaving(op, true));
    assert f.workers[w := Leaving(op, true)] == g.workers;
    assert Apply(f, ClearRemove(w, false)) == g;
    assert g.workers[w := Idle] == e.workers[w := Idle];
  }

  /** It happens, for one by a crash between the acknowledgement of an operation and the removal of its receipt. */
  lemma CrashLeavesReceipt()
    ensures exists e :: Reached(e) && Leaves(e, Crash)
  {
    hide Reached;
    AtRest();
    StartRun(Three([Idle, Idle, Idle], false, None, {}, Record({}, {}, {})), 2, FIRST);
    var e := Three([Idle, Idle, Starting(FIRST)], true, Some(FIRST), {FIRST}, Record({FIRST}, {}, {FIRST}));
    assert [Idle, Idle, Idle][2 := Starting(FIRST)] == e.workers && {} + {FIRST} == {FIRST};
    var f := Three([Idle, Idle, Done(FIRST, true)], true, Some(FIRST), {FIRST}, Record({FIRST}, {}, {}));
    Do(e, StartReturns(2, Succeeds), f);
    var g := Three([Idle, Idle, Acked(FIRST, true)], true, Some(FIRST), {}, Record({FIRST}, {FIRST}, {}));
    Do(f, Acknowledge(2), g);
    assert Leaves(g, Crash);
  }

  // --------------------------------------- a receipt of a start that never was

  /** The worker has linked a receipt for a start that is not made, or not made any more. */
  predicate Backs(w: Worker, op: Op) {
    (w.Written? || w.Failing? || (w.Clearing? && w.failed)) && w.op == op
  }

  /** The receipt, if there is one, stands for a start that was made. */
  predicate Settled(e: Edge) {
    e.receipt.Some? ==> e.receipt.value in e.started
  }

  /**
   The step does not leave a receipt without its start: the process does not crash between the two,
   a link is not reported as failed after it was made, the start is not given up before its command
   ran, and the receipt of a failed start can be read and removed.
   */
  predicate Tidy(e: Edge, step: Step) {
    && (step.Crash? ==> Settled(e))
    && (step.WriteReceipt? && step.linking.LinkedButFailed? && step.w < |e.workers| && e.workers[step.w].Fresh? ==>
          Settled(Apply(e, step)))
    && (step.StartReturns? && step.result.NeverRan? && step.w < |e.workers| && e.workers[step.w].Starting? ==>
          Settled(Apply(e, step)))
    && (step.ClearRead? && !step.readable && step.w < |e.workers| && e.workers[step.w].Failing? ==>
          Settled(Apply(e, step)))
    && (step.ClearRemove? && step.w < |e.workers| && e.workers[step.w].Clearing? && e.workers[step.w].failed ==>
          Settled(Apply(e, step)))
  }

  predicate AllTidy(e: Edge, steps: seq<Step>) {
    steps != [] ==> AllTidy(e, steps[..|steps| - 1]) && Tidy(ApplyAll(e, steps[..|steps| - 1]), steps[|steps| - 1])
  }

  /** A receipt stands for a start that was made, or a worker is about to make it or to clear it away. */
  ghost predicate Backed(e: Edge) {
    && e.phantom == {}
    && (e.receipt.Some? && e.receipt.value !in e.started ==>
          exists i | 0 <= i < |e.workers| :: Backs(e.workers[i], e.receipt.value))
  }

  lemma BackedStep(e: Edge, step: Step)
    requires Invariant(e) && Backed(e) && Accepted(e, step) && Tidy(e, step)
    ensures Backed(Apply(e, step))
  {
    var f := Apply(e, step);
    if OfWorker(step) && step.w < |e.workers| && f != e {
      var x := e.workers[step.w];
      assert WorkerOk(e, x);
      if e.receipt.Some? && e.receipt.value !in e.started {
        var i :| 0 <= i < |e.workers| && Backs(e.workers[i], e.receipt.value);
        assert WorkerOk(e, e.workers[i]);
        if i != step.w {
          AloneWhenExclusive(e, i, step.w);
          BackedBeside(e, step, i);
        } else {
          BackedOwn(e, step);
        }
      } else {
        BackedOwn(e, step);
      }
    }
  }

  /** A step of a worker without the exclusive gate, beside one that backs the receipt. */
  lemma BackedBeside(e: Edge, step: Step, i: nat)
    requires OfWorker(step) && step.w < |e.workers| && i < |e.workers| && i != step.w && e.phantom == {}
    requires e.receipt.Some? && Backs(e.workers[i], e.receipt.value) && Holds(e.workers[step.w]).Free?
    requires WorkerOk(e, e.workers[step.w]) && Accepted(e, step) && e.writer
    ensures Backed(Apply(e, step))
  {
    var f := Apply(e, step);
    assert f.receipt == e.receipt && f.started == e.started && f.phantom == e.phantom && f.workers[i] == e.workers[i];
  }

  /** A step of the worker that backs the receipt, or while the receipt needs no backing. */
  lemma BackedOwn(e: Edge, step: Step)
    requires OfWorker(step) && step.w < |e.workers| && e.phantom == {} && Tidy(e, step)
    requires e.receipt.Some? && e.receipt.value !in e.started ==> Backs(e.workers[step.w], e.receipt.value)
    requires WorkerOk(e, e.workers[step.w])
    ensures Backed(Apply(e, step))
  {
    var f := Apply(e, step);
    assert f.receipt.Some? && f.receipt.value !in f.started ==> Backs(f.workers[step.w], f.receipt.value);
  }

  /** In a tidy run an executor that finds its own receipt waits for an updater that was started. */
  lemma {:induction false} ReceiptMeansStarted(n: nat, steps: seq<Step>)
    requires AllAccepted(Initial(n), steps) && AllTidy(Initial(n), steps)
    ensures Backed(ApplyAll(Initial(n), steps)) && ApplyAll(Initial(n), steps).phantom == {}
  {
    if steps != [] {
      ReceiptMeansStarted(n, steps[..|steps| - 1]);
      AlwaysInvariant(n, steps[..|steps| - 1]);
      BackedStep(ApplyAll(Initial(n), steps[..|steps| - 1]), steps[|steps| - 1]);
    }
  }

  /**
   And only in a tidy one: after a step that is not tidy, and a crash, the next lease of the
   receipt's operation makes an executor take the receipt for a start; or, if the server is done
   with that operation, the receipt is left behind.
   */
  lemma UntidyStepIsTaken(e: Edge, step: Step, w: nat)
    requires Invariant(e) && !Tidy(e, step) && w < |e.workers|
    ensures var f := Apply(e, step);
            && f.receipt.Some?
            && var op := f.receipt.value;
               if op in f.ended then LeftBehind(Apply(f, Crash), op)
               else op in ApplyAll(f, [Crash, Lease(w, op), Acquire(w), ReadReceipt(w, true)]).phantom
  {
    UntidyStep(e, step);
    var f := Apply(e, step);
    if f.receipt.value !in f.ended { UnsettledReceiptIsTaken(f, w, f.receipt.value); }
    hide ApplyAll;
  }

  lemma UntidyStep(e: Edge, step: Step)
    requires Invariant(e) && !Tidy(e, step)
    ensures var f := Apply(e, step); |f.workers| == |e.workers| && !Settled(f) && f.receipt.value.bundle
  {
    if OfWorker(step) { assert WorkerOk(e, e.workers[step.w]); }
  }

  lemma UnsettledReceiptIsTaken(e: Edge, w: nat, op: Op)
    requires op.bundle && e.receipt == Some(op) && op !in e.started && op !in e.ended && w < |e.workers|
    ensures op in ApplyAll(e, [Crash, Lease(w, op), Acquire(w), ReadReceipt(w, true)]).phantom
  {
    var a := Apply(e, Crash);
    var b := Apply(a, Lease(w, op));
    var c := Apply(b, Acquire(w));
    assert c.workers[w] == Entered(op) && c.receipt == e.receipt && c.started == e.started;
    FourSteps(e, Crash, Lease(w, op), Acquire(w), ReadReceipt(w, true));
  }

  lemma FourSteps(e: Edge, a: Step, b: Step, c: Step, d: Step)
    ensures ApplyAll(e, [a, b, c, d]) == Apply(Apply(Apply(Apply(e, a), b), c), d)
  {
    hide Apply;
    assert [a, b, c, d][..3] == [a, b, c] && [a, b, c][..2] == [a, b] && [a, b][..1] == [a] && [a][..0] == [];
    assert ApplyAll(e, [a]) == Apply(e, a);
    assert ApplyAll(e, [a, b]) == Apply(ApplyAll(e, [a]), b);
    assert ApplyAll(e, [a, b, c]) == Apply(ApplyAll(e, [a, b]), c);
  }

  // ---------------------------------------------------- two units at work at once

  /** The step does not acknowledge the end of an operation whose unit may still be at work. */
  predicate Calm(e: Edge, step: Step) {
    step.Acknowledge? && step.w < |e.workers| && e.workers[step.w].Done? && e.workers[step.w].op !in e.ended ==>
      e.workers[step.w].op !in e.running
  }

  predicate AllCalm(e: Edge, steps: seq<Step>) {
    steps != [] ==> AllCalm(e, steps[..|steps| - 1]) && Calm(ApplyAll(e, steps[..|steps| - 1]), steps[|steps| - 1])
  }

  /** A unit that may be at work belongs to an open operation, and none was started beside it. */
  ghost predicate OneUnit(e: Edge) {
    e.running <= e.open && e.overlap == {}
  }

  lemma OneUnitStep(e: Edge, step: Step)
    requires Invariant(e) && OneUnit(e) && Calm(e, step)
    ensures OneUnit(Apply(e, step))
  {
    if OfWorker(step) && step.w < |e.workers| { assert WorkerOk(e, e.workers[step.w]); }
  }

  /** If no end is acknowledged while the unit may be at work, no two units are ever at work at once. */
  lemma {:induction false} OneUnitAtATime(n: nat, steps: seq<Step>)
    requires AllAccepted(Initial(n), steps) && AllCalm(Initial(n), steps)
    ensures OneUnit(ApplyAll(Initial(n), steps)) && |ApplyAll(Initial(n), steps).running| <= 1
  {
    if steps != [] {
      OneUnitAtATime(n, steps[..|steps| - 1]);
      AlwaysInvariant(n, steps[..|steps| - 1]);
      OneUnitStep(ApplyAll(Initial(n), steps[..|steps| - 1]), steps[|steps| - 1]);
    }
    AlwaysInvariant(n, steps);
    AtMostOne(ApplyAll(Initial(n), steps));
  }

  lemma AtMostOne(e: Edge)
    requires ReceiptOk(e) && OneUnit(e)
    ensures |e.running| <= 1
  {
    if e.running != {} {
      var op :| op in e.running;
      assert e.running == {op};
    }
  }

  function ClearSteps(w: nat): seq<Step> {
    [Acknowledge(w), ClearRead(w, true), ClearRemove(w, true), Release(w)]
  }

  /**
   And only then: from any reachable state with one unit at most, an acknowledgement that is not
   calm lets the same worker start any other operation beside the unit at work.
   */
  lemma HastyEndOverlaps(e: Edge, w: nat, other: Op)
    requires Invariant(e) && OneUnit(e) && Accepted(e, Acknowledge(w)) && !Calm(e, Acknowledge(w))
    requires other.bundle && other !in e.ended && other != e.workers[w].op
    ensures other in ApplyAll(e, ClearSteps(w) + StartSteps(w, other)).overlap
  {
    var op := e.workers[w].op;
    assert op in e.open && e.receipt == Some(op);
    assert Holds(e.workers[w]).Exclusive? && e.writer && e.readers == 0 by { CountPositive(e.workers, w, Exclusive); }
    var f := Put(e, w, Idle).(writer := false, receipt := None, open := e.open - {op}, ended := e.ended + {op});
    Cleared(e, w, op);
    CanStart(f, w, other);
    assert other in AfterStart(f, w, other).overlap by { assert op in f.running; }
    hide *;
    ApplyConcat(e, ClearSteps(w), StartSteps(w, other));
  }

  lemma Cleared(e: Edge, w: nat, op: Op)
    requires w < |e.workers| && e.workers[w] == Done(op, true) && op.bundle && e.receipt == Some(op) && op !in e.ended
    ensures ApplyAll(e, ClearSteps(w))
         == Put(e, w, Idle).(writer := false, receipt := None, open := e.open - {op}, ended := e.ended + {op})
  {
    var f := Put(e, w, Acked(op, true)).(open := e.open - {op}, ended := e.ended + {op});
    assert Apply(e, Acknowledge(w)) == f;
    SweepSteps(f, w, op);
    assert f.workers[w := Idle] == e.workers[w := Idle];
    hide Apply;
    FourSteps(e, Acknowledge(w), ClearRead(w, true), ClearRemove(w, true), Release(w));
  }

  lemma SweepSteps(e: Edge, w: nat, op: Op)
    requires w < |e.workers| && e.workers[w] == Acked(op, true) && op.bundle && e.receipt == Some(op)
    ensures Apply(Apply(Apply(e, ClearRead(w, true)), ClearRemove(w, true)), Release(w))
         == Put(e, w, Idle).(writer := false, receipt := None)
  {
    var g := Put(e, w, Clearing(op, false, true));
    assert Apply(e, ClearRead(w, true)) == g;
    var h := Put(g, w, Leaving(op, true)).(receipt := None);
    assert Apply(g, ClearRemove(w, true)) == h;
    assert h.workers[w := Idle] == e.workers[w := Idle];
  }

  /** It happens: a start that timed out is reported as ended. */
  lemma TimedOutStartIsHasty()
    ensures exists e :: Reached(e) && !Calm(e, Acknowledge(2)) && OneUnit(e)
  {
    hide Reached;
    AtRest();
    StartRun(Three([Idle, Idle, Idle], false, None, {}, Record({}, {}, {})), 2, FIRST);
    var e := Three([Idle, Idle, Starting(FIRST)], true, Some(FIRST), {FIRST}, Record({FIRST}, {}, {FIRST}));
    assert [Idle, Idle, Idle][2 := Starting(FIRST)] == e.workers && {} + {FIRST} == {FIRST};
    var f := Three([Idle, Idle, Done(FIRST, true)], true, Some(FIRST), {FIRST}, Record({FIRST}, {}, {FIRST}));
    Do(e, StartReturns(2, Unclear), f);
    assert !Calm(f, Acknowledge(2));
  }
}
