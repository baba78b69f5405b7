/**
 Single-use plans for fast-forwarding and publishing a project checkout
 (cmd/mcp-edge/project_git_sync_unix.go and project_git_sync_windows.go).
 */
module GitPlans {
  import opened Text
  import opened CommitGraph

  const PLAN_TTL := 300

  datatype Platform = Unix | Windows

  datatype Action = FastForward | Publish

  datatype Identity = Identity(workspace: string, alias: string, target: string)

  // --------------------------------------------------------------- inspection

  /**
   What the Git commands of one inspection report; each part may have been read at another
   moment. No branch name means a detached head, no head an unborn branch, and `counts` says
   whether the two sides could be counted.
   */
  datatype Observation = Observation(
    branch: string, head: Option<Commit>, clean: bool,
    remoteHead: Option<Commit>, tracked: Option<Commit>, counts: bool)

  datatype Status = Status(
    branch: string, head: Option<Commit>, unborn: bool, detached: bool, clean: bool,
    remoteHead: Option<Commit>, fetched: bool, ahead: nat, behind: nat, diverged: bool)

  /**
   `inspectProjectGitCheckout` and `inspectWindowsProjectGit`. Without counts Unix fails for a
   fetched remote head; Windows reports zeros.
   */
  function Inspect(p: Platform, o: Observation): Option<Status> {
    var s := Status(o.branch, o.head, o.head.None?, false, o.clean, o.remoteHead, false, 0, 0, false);
    if o.branch == "" then
      if o.head.None? then None
      else Some(Status(o.branch, o.head, false, true, o.clean, None, false, 0, 0, false))
    else if o.remoteHead.None? then Some(s)
    else
      var fetched := o.tracked == o.remoteHead;
      if o.head.None? then Some(s.(fetched := fetched))
      else if !o.counts then
        if p.Unix? && fetched then None else Some(s.(fetched := fetched))
      else
        var ahead, behind := Surplus(o.head.value, o.remoteHead.value), Surplus(o.remoteHead.value, o.head.value);
        Some(s.(fetched := fetched, ahead := ahead, behind := behind, diverged := ahead > 0 && behind > 0))
  }

  /** `merge-base --is-ancestor`, which may also fail to answer. */
  predicate IsAncestor(a: Commit, b: Commit, answers: bool) {
    answers && a in Reach(b)
  }

  /** The ancestor relation an action needs. */
  predicate Related(action: Action, head: Option<Commit>, remoteHead: Option<Commit>) {
    match action
    case FastForward => remoteHead.Some? && (head.Some? ==> head.value in Reach(remoteHead.value))
    case Publish => head.Some? && (remoteHead.Some? ==> remoteHead.value in Reach(head.value))
  }

  // -------------------------------------------------------------------- plans

  datatype Plan = Plan(
    action: Action, identity: Identity, branch: string, head: Option<Commit>, remoteHead: Option<Commit>,
    expiresAt: int, used: bool)

  /** The status checks shared by previews and executions. */
  predicate Suits(action: Action, s: Status) {
    match action
    case FastForward => s.clean && s.fetched && !s.diverged && s.ahead == 0
    case Publish => !s.detached && !s.unborn && s.clean && !s.diverged && s.behind == 0
  }

  /**
   Whether the ancestor question is asked: never when one side is missing, and not in Unix's
   execution of a fast-forward.
   */
  predicate Asks(p: Platform, action: Action, s: Status, executing: bool) {
    match action
    case FastForward => !s.unborn && !(p.Unix? && executing)
    case Publish => s.remoteHead.Some?
  }

  predicate Answered(p: Platform, action: Action, s: Status, executing: bool, answers: bool) {
    && Suits(action, s)
    && (Asks(p, action, s, executing) ==>
          s.head.Some? && s.remoteHead.Some?
          && (if action.FastForward? then IsAncestor(s.head.value, s.remoteHead.value, answers)
              else IsAncestor(s.remoteHead.value, s.head.value, answers)))
  }

  /** The preview of an action: the plan it issues, if any. */
  function Preview(
      p: Platform, action: Action, o: Observation, answers: bool, identity: Identity, now: int): Option<Plan>
  {
    match Inspect(p, o)
    case None => None
    case Some(s) =>
      if !s.detached && Answered(p, action, s, false, answers)
      then Some(Plan(action, identity, s.branch, s.head, s.remoteHead, now + PLAN_TTL, false)) else None
  }

  /** The checks an execution makes before it consumes its plan. */
  predicate Admits(p: Platform, plan: Plan, o: Observation, answers: bool) {
    match Inspect(p, o)
    case None => false
    case Some(s) =>
      && s.branch == plan.branch && s.head == plan.head && s.remoteHead == plan.remoteHead
      && Answered(p, plan.action, s, true, answers)
  }

  predicate Usable(plan: Plan, action: Action, identity: Identity, now: int) {
    plan.action == action && !plan.used && now < plan.expiresAt && plan.identity == identity
  }

  /**
   On both platforms the checks let through only inspections in which the needed ancestor relation
   holds, with or without counts.
   */
  lemma AnsweredIsRelated(p: Platform, action: Action, o: Observation, executing: bool, answers: bool)
    requires Inspect(p, o).Some?
    ensures var s := Inspect(p, o).value;
            Answered(p, action, s, executing, answers) ==> Related(action, s.head, s.remoteHead) && !s.detached
  {
    var s := Inspect(p, o).value;
    if s.head.Some? && s.remoteHead.Some? {
      NoSurplus(s.head.value, s.remoteHead.value);
      NoSurplus(s.remoteHead.value, s.head.value);
    }
  }

  /** Exactly when a fast-forward plan is issued. */
  lemma FastForwardIssued(p: Platform, o: Observation, answers: bool, identity: Identity, now: int)
    ensures Preview(p, FastForward, o, answers, identity, now).Some? <==>
            && o.branch != "" && o.clean && o.remoteHead.Some? && o.tracked == o.remoteHead
            && (o.head.Some? ==> answers && o.head.value in Reach(o.remoteHead.value) && (p.Unix? ==> o.counts))
  {
    if o.head.Some? && o.remoteHead.Some? { NoSurplus(o.head.value, o.remoteHead.value); }
  }

  /** Exactly when a publication plan is issued. */
  lemma PublishIssued(p: Platform, o: Observation, answers: bool, identity: Identity, now: int)
    ensures Preview(p, Publish, o, answers, identity, now).Some? <==>
            && o.branch != "" && o.clean && o.head.Some?
            && (o.remoteHead.Some? ==>
                  && answers && o.remoteHead.value in Reach(o.head.value)
                  && (p.Unix? && o.tracked == o.remoteHead ==> o.counts))
  {
    if o.head.Some? && o.remoteHead.Some? { NoSurplus(o.remoteHead.value, o.head.value); }
  }

  /** What plan a preview issues: what it saw, for who asked, unused, and for five minutes. */
  lemma PlanIssued(p: Platform, action: Action, o: Observation, answers: bool, identity: Identity, now: int)
    requires Preview(p, action, o, answers, identity, now).Some?
    ensures var plan := Preview(p, action, o, answers, identity, now).value;
            && plan.action == action && plan.identity == identity && !plan.used && plan.expiresAt == now + 300
            && plan.branch == o.branch != "" && plan.head == o.head && plan.remoteHead == o.remoteHead
  {
    hide Answered;
  }

  /** Exactly which observations let an execution go on to fast-forward. */
  lemma FastForwardAdmitted(p: Platform, plan: Plan, o: Observation, answers: bool)
    requires plan.action.FastForward?
    ensures Admits(p, plan, o, answers) <==>
            && o.branch == plan.branch != "" && o.head == plan.head && o.remoteHead == plan.remoteHead
            && o.clean && o.remoteHead.Some? && o.tracked == o.remoteHead
            && (o.head.Some? ==>
                  o.head.value in Reach(o.remoteHead.value) && (if p.Unix? then o.counts else answers))
  {
    if o.head.Some? && o.remoteHead.Some? { NoSurplus(o.head.value, o.remoteHead.value); }
  }

  /** Exactly which observations let an execution go on to publish. */
  lemma PublishAdmitted(p: Platform, plan: Plan, o: Observation, answers: bool)
    requires plan.action.Publish?
    ensures Admits(p, plan, o, answers) <==>
            && o.branch == plan.branch != "" && o.head == plan.head && o.remoteHead == plan.remoteHead
            && o.clean && o.head.Some?
            && (o.remoteHead.Some? ==>
                  && answers && o.remoteHead.value in Reach(o.head.value)
                  && (p.Unix? && o.tracked == o.remoteHead ==> o.counts))
  {
    if o.head.Some? && o.remoteHead.Some? { NoSurplus(o.remoteHead.value, o.head.value); }
  }

  // ------------------------------------------------------------ the repositories

  /**
   The checkout's branches and the one that is checked out, and the remote's branches. A detached
   head is the branch without a name.
   */
  datatype Repo = Repo(current: string, heads: map<string, Commit>, remote: map<string, Commit>)

  ghost predicate Reachable(c: Commit, refs: map<string, Commit>) {
    exists b | b in refs :: c in Reach(refs[b])
  }

  function HeadOf(refs: map<string, Commit>, branch: string): Option<Commit> {
    if branch in refs then Some(refs[branch]) else None
  }

  /** `merge --ff-only`: moves the current branch forward, or finds nothing to do, or fails. */
  function MergeFfOnly(r: Repo, target: Commit): Option<Repo> {
    if r.current !in r.heads then Some(r.(heads := r.heads[r.current := target]))
    else if r.heads[r.current] in Reach(target) then Some(r.(heads := r.heads[r.current := target]))
    else if target in Reach(r.heads[r.current]) then Some(r)
    else None
  }

  /** `push <branch>:refs/heads/<branch>` without force: what is pushed is the branch as it is now. */
  function Push(r: Repo, branch: string): Option<Repo> {
    if branch !in r.heads then None
    else if branch in r.remote && r.remote[branch] !in Reach(r.heads[branch]) then None
    else Some(r.(remote := r.remote[branch := r.heads[branch]]))
  }

  /** The command a plan stands for, if Git accepts it. */
  function Command(plan: Plan, r: Repo): Option<Repo> {
    if plan.action.Publish? then Push(r, plan.branch)
    else if plan.remoteHead.Some? then MergeFfOnly(r, plan.remoteHead.value)
    else None
  }

  /** The repositories after the command was issued; it may not come to work. */
  function Effect(plan: Plan, r: Repo, works: bool): Repo {
    if works && Command(plan, r).Some? then Command(plan, r).value else r
  }

  /** Exactly when Git accepts the command of a plan, and all that it changes: one branch on one side. */
  lemma CommandMeans(plan: Plan, r: Repo)
    ensures plan.action.FastForward? && plan.remoteHead.None? ==> Command(plan, r).None?
    ensures plan.action.FastForward? && plan.remoteHead.Some? ==>
              var target, head := plan.remoteHead.value, HeadOf(r.heads, r.current);
              && (Command(plan, r).Some? <==>
                  head.None? || head.value in Reach(target) || target in Reach(head.value))
              && (Command(plan, r).Some? ==>
                    var end := if head.Some? && head.value !in Reach(target) then head.value else target;
                    Command(plan, r).value == Repo(r.current, r.heads[r.current := end], r.remote))
    ensures plan.action.Publish? ==>
              var head, there := HeadOf(r.heads, plan.branch), HeadOf(r.remote, plan.branch);
              && (Command(plan, r).Some? <==> head.Some? && (there.Some? ==> there.value in Reach(head.value)))
              && (Command(plan, r).Some? ==>
                    Command(plan, r).value == Repo(r.current, r.heads, r.remote[plan.branch := head.value]))
    ensures Effect(plan, r, false) == r
    ensures Effect(plan, r, true) == if Command(plan, r).Some? then Command(plan, r).value else r
  {
    if r.current in r.heads { assert r.heads[r.current := r.heads[r.current]] == r.heads; }
  }

  lemma MovingForwardKeeps(refs: map<string, Commit>, b: string, c: Commit, x: Commit)
    requires b in refs ==> refs[b] in Reach(c)
    requires Reachable(x, refs)
    ensures Reachable(x, refs[b := c])
  {
    var k :| k in refs && x in Reach(refs[k]);
    var after := refs[b := c];
    if k == b {
      ReachTransitive(refs[b], c);
      assert b in after && x in Reach(after[b]);
    } else {
      assert k in after && x in Reach(after[k]);
    }
  }

  /** Neither command makes a commit unreachable, on either side. */
  lemma NothingLost(plan: Plan, r: Repo, works: bool, x: Commit)
    ensures Reachable(x, r.heads) ==> Reachable(x, Effect(plan, r, works).heads)
    ensures Reachable(x, r.remote) ==> Reachable(x, Effect(plan, r, works).remote)
  {
    if works && Command(plan, r).Some? && Command(plan, r).value != r {
      if plan.action.Publish? {
        if Reachable(x, r.remote) { MovingForwardKeeps(r.remote, plan.branch, r.heads[plan.branch], x); }
      } else {
        if Reachable(x, r.heads) { MovingForwardKeeps(r.heads, r.current, plan.remoteHead.value, x); }
      }
    }
  }

  /** The commit a plan is for: a fast-forward brings it to the checkout's branch, a publication to the remote's. */
  function Target(plan: Plan): Option<Commit> {
    if plan.action.FastForward? then plan.remoteHead else plan.head
  }

  /** The planned commit is where the plan is to bring it. */
  predicate Landed(plan: Plan, r: Repo) {
    HeadOf(if plan.action.FastForward? then r.heads else r.remote, plan.branch) == Target(plan)
  }

  /** What the repositories must be like for that when the command is issued. */
  predicate Lands(plan: Plan, r: Repo) {
    if plan.action.FastForward? then
      if r.current == plan.branch
      then plan.remoteHead.Some? && (plan.branch in r.heads ==> r.heads[plan.branch] in Reach(plan.remoteHead.value))
      else Landed(plan, r)
    else
      if Push(r, plan.branch).Some? then HeadOf(r.heads, plan.branch) == plan.head else Landed(plan, r)
  }

  lemma LandsIff(plan: Plan, r: Repo)
    requires Related(plan.action, plan.head, plan.remoteHead)
    ensures Landed(plan, Effect(plan, r, true)) <==> Lands(plan, r)
  {
    if plan.action.FastForward? && plan.branch in r.heads && plan.remoteHead.value == r.heads[plan.branch] {
      assert r.heads[plan.branch] in Reach(plan.remoteHead.value);
    }
  }

  /** The repositories are as the plan says. */
  predicate AsPlanned(plan: Plan, r: Repo) {
    && r.current == plan.branch
    && HeadOf(r.heads, plan.branch) == plan.head && HeadOf(r.remote, plan.branch) == plan.remoteHead
  }

  /** On the repositories the plan describes the command is accepted and lands, on both sides. */
  lemma PlannedLands(plan: Plan, r: Repo)
    requires Related(plan.action, plan.head, plan.remoteHead) && AsPlanned(plan, r)
    ensures Command(plan, r).Some? && Lands(plan, r)
    ensures var after := Effect(plan, r, true);
            && after.current == r.current
            && HeadOf(after.heads, plan.branch) == Target(plan) == HeadOf(after.remote, plan.branch)
  {
  }

  /** A commit made after the checks and before the push is published in the plan's name, whatever the remote held. */
  lemma PublishTakesLaterCommit(plan: Plan, content: string)
    requires plan.action.Publish? && Related(Publish, plan.head, plan.remoteHead)
    ensures var later := Commit(content, [plan.head.value]);
            var remote := if plan.remoteHead.Some? then map[plan.branch := plan.remoteHead.value] else map[];
            var after := Effect(plan, Repo(plan.branch, map[plan.branch := later], remote), true);
            HeadOf(after.remote, plan.branch) == Some(later) && !Landed(plan, after)
  {
    var head := plan.head.value;
    var later := Commit(content, [head]);
    assert later.parents[0] == head;
    assert head in ReachAny([head]);
    ReachTransitive(head, later);
    assert Depth(later) == 1 + DepthAny([head]) && DepthAny([head]) >= Depth(head);
  }

  /** What an inspection reports that reads the checkout at one moment and the remote at another. */
  function Observe(local: Repo, remote: Repo, clean: bool, tracked: Option<Commit>, counts: bool): Observation {
    Observation(
      local.current, HeadOf(local.heads, local.current), clean, HeadOf(remote.remote, local.current), tracked, counts)
  }

  /**
   The inspection after the command, on which an execution reports success. A fast-forward does not
   look at the branch.
   */
  predicate Confirms(p: Platform, plan: Plan, o: Observation) {
    match Inspect(p, o)
    case None => false
    case Some(s) =>
      if plan.action.FastForward? then s.clean && s.head == plan.remoteHead && s.remoteHead == plan.remoteHead
      else s.clean && s.branch == plan.branch && s.head == plan.head && s.remoteHead == plan.head
  }

  // ------------------------------------------------- executions side by side

  /** How far an execution has come. What it read stays with it; a crash ends it. */
  datatype Phase =
    | Begun
    | Accepted(plan: Plan)
    | Admitted(plan: Plan, seen: Observation, answers: bool)
    | Owner(plan: Plan, seen: Observation, answers: bool, marked: bool)
    | Issued(plan: Plan)
    | Checking(plan: Plan, local: Repo)
    | Ended

  datatype Execution = Execution(id: string, action: Action, identity: Identity, now: int, phase: Phase)

  /** A merge or push that was issued: what its execution had seen, and what it did. */
  datatype Mutation = Mutation(
    run: nat, plan: Plan, seen: Observation, answers: bool, works: bool, told: bool, before: Repo, after: Repo)
  {
    /** Its execution is told that the command succeeded; it may also take effect and be reported as failed. */
    predicate Accepted() { works && told && Command(plan, before).Some? }
  }

  /** A success that was reported, and what the inspection before it read. */
  datatype Success = Success(plan: Plan, local: Repo, remote: Repo, seen: Observation)

  /**
   The plan files and consumed markers on disk, the repositories, and the executions: run `n` is
   the n-th one started. `issued` records the mutations made in a plan's name, `reports` the
   successes reported.
   */
  datatype System = System(
    plans: map<string, Plan>, consumed: set<string>, repo: Repo, runs: seq<Execution>,
    issued: map<string, seq<Mutation>>, reports: map<string, Success>)

  /** How creating the consumed marker ends: the marker may exist although the creation is reported as failed. */
  datatype Marking = Created | CreatedButFailed | NotCreated

  /** One step of one execution, of a preview, of somebody else, or a crash. */
  datatype Step =
    | Issue(id: string, action: Action, identity: Identity, observation: Observation, answers: bool, now: int)
    | Begin(id: string, action: Action, identity: Identity, now: int)
    | ReadPlan(run: nat)
    | Look(run: nat, observation: Observation, answers: bool)
    | Consume(run: nat, marking: Marking)
    | MarkUsed(run: nat, works: bool)
    | Mutate(run: nat, works: bool, told: bool)
    | LookBack(run: nat)
    | Report(run: nat, clean: bool, tracked: Option<Commit>, counts: bool)
    | GiveUp(run: nat)
    | Crash
    | Elsewhere(repo: Repo)

  function AllEnded(runs: seq<Execution>): seq<Execution> {
    seq(|runs|, i requires 0 <= i < |runs| => runs[i].(phase := Ended))
  }

  predicate Running(s: System, run: nat) {
    run < |s.runs| && !s.runs[run].phase.Ended?
  }

  function WithPhase(s: System, run: nat, phase: Phase): System
    requires run < |s.runs|
  {
    s.(runs := s.runs[run := s.runs[run].(phase := phase)])
  }

  /** Creating a plan fails if its file exists. */
  function DoIssue(s: System, id: string, plan: Option<Plan>): System {
    if plan.None? || id in s.plans then s
    else s.(plans := s.plans[id := plan.value], issued := s.issued[id := []])
  }

  /** `readProjectGitPlan` and the checks on what it returns. */
  function DoRead(s: System, run: nat): System
    requires Running(s, run)
  {
    var e := s.runs[run];
    if !e.phase.Begun? then s
    else if e.id in s.plans && Usable(s.plans[e.id], e.action, e.identity, e.now)
    then WithPhase(s, run, Accepted(s.plans[e.id]))
    else WithPhase(s, run, Ended)
  }

  function DoLook(p: Platform, s: System, run: nat, o: Observation, answers: bool): System
    requires Running(s, run)
  {
    var e := s.runs[run];
    if !e.phase.Accepted? then s
    else if Admits(p, e.phase.plan, o, answers) then WithPhase(s, run, Admitted(e.phase.plan, o, answers))
    else WithPhase(s, run, Ended)
  }

  /** `consumeProjectGitPlan`: an exclusive creation. */
  function DoConsume(s: System, run: nat, marking: Marking): System
    requires Running(s, run)
  {
    var e := s.runs[run];
    if !e.phase.Admitted? then s
    else if e.id in s.consumed || marking.NotCreated? then WithPhase(s, run, Ended)
    else
      var next := if marking.Created? then Owner(e.phase.plan, e.phase.seen, e.phase.answers, false) else Ended;
      WithPhase(s, run, next).(consumed := s.consumed + {e.id})
  }

  /** Rewriting the plan as used; a failure ends the execution. */
  function DoMark(s: System, run: nat, works: bool): System
    requires Running(s, run)
  {
    var e := s.runs[run];
    if !e.phase.Owner? then s
    else if !works then WithPhase(s, run, Ended)
    else WithPhase(s, run, e.phase.(marked := true)).(plans := s.plans[e.id := e.phase.plan.(used := true)])
  }

  /** The record of the merge or push an execution issues now. */
  function MutationOf(s: System, run: nat, works: bool, told: bool): Mutation
    requires run < |s.runs| && s.runs[run].phase.Owner?
  {
    var o := s.runs[run].phase;
    Mutation(run, o.plan, o.seen, o.answers, works, told, s.repo, Effect(o.plan, s.repo, works))
  }

  /** The merge or push. A command that is reported as failed ends the execution. */
  function DoMutate(s: System, run: nat, works: bool, told: bool): System
    requires Running(s, run)
  {
    var e := s.runs[run];
    if !e.phase.Owner? || !e.phase.marked || e.id !in s.issued then s
    else
      var m := MutationOf(s, run, works, told);
      WithPhase(s, run, if m.Accepted() then Issued(m.plan) else Ended).(
        repo := m.after, issued := s.issued[e.id := s.issued[e.id] + [m]])
  }

  /** The inspection after the command reads the checkout first. */
  function DoLookBack(s: System, run: nat): System
    requires Running(s, run)
  {
    if s.runs[run].phase.Issued? then WithPhase(s, run, Checking(s.runs[run].phase.plan, s.repo)) else s
  }

  /** Then it reads the remote, and the execution reports success or an error. */
  function DoReport(p: Platform, s: System, run: nat, clean: bool, tracked: Option<Commit>, counts: bool): System
    requires Running(s, run)
  {
    var e := s.runs[run];
    if !e.phase.Checking? then s
    else
      var o := Observe(e.phase.local, s.repo, clean, tracked, counts);
      var ended := WithPhase(s, run, Ended);
      if !Confirms(p, e.phase.plan, o) then ended
      else ended.(reports := s.reports[e.id := Success(e.phase.plan, e.phase.local, s.repo, o)])
  }

  function Apply(p: Platform, s: System, step: Step): System {
    match step
    case Issue(id, action, identity, o, answers, now) => DoIssue(s, id, Preview(p, action, o, answers, identity, now))
    case Begin(id, action, identity, now) => s.(runs := s.runs + [Execution(id, action, identity, now, Begun)])
    case ReadPlan(run) => if Running(s, run) then DoRead(s, run) else s
    case Look(run, o, answers) => if Running(s, run) then DoLook(p, s, run, o, answers) else s
    case Consume(run, marking) => if Running(s, run) then DoConsume(s, run, marking) else s
    case MarkUsed(run, works) => if Running(s, run) then DoMark(s, run, works) else s
    case Mutate(run, works, told) => if Running(s, run) then DoMutate(s, run, works, told) else s
    case LookBack(run) => if Running(s, run) then DoLookBack(s, run) else s
    case Report(run, clean, tracked, counts) =>
      if Running(s, run) then DoReport(p, s, run, clean, tracked, counts) else s
    case GiveUp(run) => if Running(s, run) then WithPhase(s, run, Ended) else s
    case Crash => s.(runs := AllEnded(s.runs))
    case Elsewhere(repo) => s.(repo := repo)
  }

  function ApplyAll(p: Platform, s: System, steps: seq<Step>): System {
    if steps == [] then s else Apply(p, ApplyAll(p, s, steps[..|steps| - 1]), steps[|steps| - 1])
  }

  function Initial(repo: Repo): System {
    System(map[], {}, repo, [], map[], map[])
  }

  // ------------------------------------------------------------ the invariant

  /** The plan as it was issued. */
  function Fresh(plan: Plan): Plan { plan.(used := false) }

  /** An execution that read a plan found it usable, and it is the plan that was issued. */
  ghost predicate Honest(s: System, e: Execution, plan: Plan) {
    e.id in s.plans && Fresh(s.plans[e.id]) == plan && Usable(plan, e.action, e.identity, e.now)
  }

  /** The one mutation made in the plan's name was accepted. */
  ghost predicate HasCommand(s: System, id: string, plan: Plan) {
    id in s.issued && |s.issued[id]| == 1 && s.issued[id][0].plan == plan && s.issued[id][0].Accepted()
  }

  ghost predicate Sound(p: Platform, s: System, e: Execution) {
    match e.phase
    case Begun => true
    case Accepted(plan) => Honest(s, e, plan)
    case Admitted(plan, seen, answers) => Honest(s, e, plan) && Admits(p, plan, seen, answers)
    case Owner(plan, seen, answers, marked) =>
      && Honest(s, e, plan) && Admits(p, plan, seen, answers) && (marked ==> s.plans[e.id].used)
      && e.id in s.consumed && e.id in s.issued && s.issued[e.id] == []
    case Issued(plan) => HasCommand(s, e.id, plan)
    case Checking(plan, _) => HasCommand(s, e.id, plan)
    case Ended => true
  }

  /** A mutation is justified by what its execution had seen, and did what its command does. */
  ghost predicate Justified(p: Platform, s: System, id: string, m: Mutation) {
    && m.run < |s.runs| && s.runs[m.run].id == id && Honest(s, s.runs[m.run], m.plan) && s.plans[id].used
    && Admits(p, m.plan, m.seen, m.answers) && m.after == Effect(m.plan, m.before, m.works)
  }

  /** A reported success follows an accepted command, and the inspection read what is recorded. */
  ghost predicate Reported(p: Platform, s: System, id: string, r: Success) {
    && HasCommand(s, id, r.plan) && Confirms(p, r.plan, r.seen)
    && r.seen == Observe(r.local, r.remote, r.seen.clean, r.seen.tracked, r.seen.counts)
  }

  ghost predicate RunsSound(p: Platform, s: System) {
    forall run | 0 <= run < |s.runs| :: Sound(p, s, s.runs[run])
  }

  ghost predicate OneOwner(runs: seq<Execution>) {
    forall a, b | 0 <= a < b < |runs| && runs[a].phase.Owner? && runs[b].phase.Owner? :: runs[a].id != runs[b].id
  }

  ghost predicate IssuedOk(p: Platform, s: System) {
    forall id | id in s.issued ::
      |s.issued[id]| <= 1 && (s.issued[id] != [] ==> id in s.consumed && Justified(p, s, id, s.issued[id][0]))
  }

  ghost predicate ReportsOk(p: Platform, s: System) {
    forall id | id in s.reports :: Reported(p, s, id, s.reports[id])
  }

  ghost predicate RecordsOk(p: Platform, s: System) {
    IssuedOk(p, s) && ReportsOk(p, s)
  }

  ghost predicate Invariant(p: Platform, s: System) {
    && s.plans.Keys == s.issued.Keys && s.consumed <= s.plans.Keys
    && RunsSound(p, s) && OneOwner(s.runs) && RecordsOk(p, s)
  }

  ghost predicate PlansKept(s: System, t: System) {
    forall id | id in s.plans ::
      id in t.plans && Fresh(t.plans[id]) == Fresh(s.plans[id]) && (s.plans[id].used ==> t.plans[id].used)
  }

  ghost predicate MutationsKept(s: System, t: System) {
    forall id | id in s.issued && s.issued[id] != [] :: id in t.issued && t.issued[id] == s.issued[id]
  }

  /** Between two states, plans stay up to being marked used, runs up to their phase, and markers and mutations stay. */
  ghost predicate Kept(s: System, t: System) {
    && PlansKept(s, t) && MutationsKept(s, t) && s.consumed <= t.consumed
    && |s.runs| <= |t.runs| && (forall i | 0 <= i < |s.runs| :: t.runs[i] == s.runs[i].(phase := t.runs[i].phase))
  }

  lemma JustifiedKept(p: Platform, s: System, t: System, id: string, m: Mutation)
    requires Kept(s, t) && Justified(p, s, id, m)
    ensures Justified(p, t, id, m)
  {
    hide Admits, Usable, Effect;
  }

  lemma ReportedKept(p: Platform, s: System, t: System, id: string, r: Success)
    requires Kept(s, t) && Reported(p, s, id, r)
    ensures Reported(p, t, id, r)
  {
    hide Confirms, Observe, Command;
  }

  lemma SoundKept(p: Platform, s: System, t: System, e: Execution)
    requires Kept(s, t) && Sound(p, s, e)
    requires e.phase.Owner? ==> e.id in t.issued && t.issued[e.id] == []
    ensures Sound(p, t, e)
  {
    hide Admits, Usable, Command;
  }

  /** A step that adds to the records at most empty ones keeps them in order. */
  lemma RecordsKept(p: Platform, s: System, t: System)
    requires Kept(s, t) && RecordsOk(p, s) && t.reports == s.reports
    requires forall id | id in t.issued && t.issued[id] != [] :: id in s.issued && t.issued[id] == s.issued[id]
    ensures RecordsOk(p, t)
  {
    IssuedKept(p, s, t);
    ReportsKept(p, s, t);
    hide IssuedOk, ReportsOk;
  }

  lemma IssuedKept(p: Platform, s: System, t: System)
    requires Kept(s, t) && IssuedOk(p, s)
    requires forall id | id in t.issued && t.issued[id] != [] :: id in s.issued && t.issued[id] == s.issued[id]
    ensures IssuedOk(p, t)
  {
    forall id | id in t.issued && t.issued[id] != [] ensures Justified(p, t, id, t.issued[id][0]) {
      JustifiedKept(p, s, t, id, s.issued[id][0]);
    }
    hide Justified;
  }

  lemma ReportsKept(p: Platform, s: System, t: System)
    requires Kept(s, t) && ReportsOk(p, s) && t.reports == s.reports
    ensures ReportsOk(p, t)
  {
    forall id | id in t.reports ensures Reported(p, t, id, t.reports[id]) { ReportedKept(p, s, t, id, s.reports[id]); }
    hide Reported;
  }

  lemma OwnerFresh(p: Platform, s: System, e: Execution)
    requires Sound(p, s, e) && e.phase.Owner?
    ensures e.id in s.issued && s.issued[e.id] == [] && e.id in s.consumed
    ensures Honest(s, e, e.phase.plan) && Admits(p, e.phase.plan, e.phase.seen, e.phase.answers)
    ensures e.phase.marked ==> s.plans[e.id].used
  {
  }

  /** All runs but one are as they were, and the plans they own are still untouched. */
  lemma OthersSound(p: Platform, s: System, t: System, except: int)
    requires RunsSound(p, s) && Kept(s, t) && (0 <= except < |t.runs| ==> Sound(p, t, t.runs[except]))
    requires forall i | 0 <= i < |t.runs| && i != except :: i < |s.runs| && t.runs[i] == s.runs[i]
    requires forall i | 0 <= i < |t.runs| && i != except && t.runs[i].phase.Owner? && t.runs[i].id in s.issued ::
               t.runs[i].id in t.issued && t.issued[t.runs[i].id] == s.issued[t.runs[i].id]
    ensures RunsSound(p, t)
  {
    hide Sound, Kept;
    forall i | 0 <= i < |t.runs| && i != except ensures Sound(p, t, t.runs[i]) {
      var e := t.runs[i];
      assert e == s.runs[i];
      if e.phase.Owner? { OwnerFresh(p, s, e); }
      SoundKept(p, s, t, e);
    }
  }

  lemma IssueKeeps(p: Platform, s: System, id: string, plan: Option<Plan>)
    requires Invariant(p, s)
    ensures Invariant(p, DoIssue(s, id, plan))
  {
    var t := DoIssue(s, id, plan);
    hide RunsSound, RecordsOk, OneOwner;
    if t != s {
      IssueKept(s, id, plan.value);
      hide Kept;
      OthersSound(p, s, t, -1);
      RecordsKept(p, s, t);
    }
  }

  lemma IssueKept(s: System, id: string, plan: Plan)
    requires id !in s.plans && id !in s.issued
    ensures Kept(s, s.(plans := s.plans[id := plan], issued := s.issued[id := []]))
  {
  }

  lemma MarkKeeps(p: Platform, s: System, run: nat, works: bool)
    requires Invariant(p, s) && Running(s, run)
    ensures Invariant(p, DoMark(s, run, works))
  {
    var e := s.runs[run];
    if e.phase.Owner? {
      assert Sound(p, s, e);
      if works { UsedKeeps(p, s, run); }
      else { PhaseKeeps(p, s, run, Ended); }
    }
  }

  lemma UsedKeeps(p: Platform, s: System, run: nat)
    requires Invariant(p, s) && Running(s, run) && s.runs[run].phase.Owner?
    ensures Invariant(p, DoMark(s, run, true))
  {
    var t, e := DoMark(s, run, true), s.runs[run];
    assert Sound(p, s, e);
    OwnerFresh(p, s, e);
    UsedIsSound(p, s, run);
    hide RunsSound, RecordsOk, Honest, Sound, Kept, Admits;
    OthersSound(p, s, t, run);
    RecordsKept(p, s, t);
  }

  lemma UsedIsSound(p: Platform, s: System, run: nat)
    requires Running(s, run) && s.runs[run].phase.Owner? && Sound(p, s, s.runs[run])
    ensures var t := DoMark(s, run, true);
            t.plans.Keys == s.plans.Keys && Kept(s, t) && Sound(p, t, t.runs[run])
  {
    hide Admits, Usable;
    OwnerFresh(p, s, s.runs[run]);
  }

  /** Moving one run to a sound phase other than owner. */
  lemma PhaseKeeps(p: Platform, s: System, run: nat, phase: Phase)
    requires Invariant(p, s) && Running(s, run) && !phase.Owner? && Sound(p, s, s.runs[run].(phase := phase))
    ensures Invariant(p, WithPhase(s, run, phase))
  {
    var t := WithPhase(s, run, phase);
    PhaseKept(s, run, phase);
    hide RunsSound, RecordsOk, Sound, Kept;
    OwnerEnds(s.runs, run, phase);
    hide OneOwner;
    SoundKept(p, s, t, t.runs[run]);
    OthersSound(p, s, t, run);
    RecordsKept(p, s, t);
  }

  lemma StaysKept(s: System, t: System)
    requires t.plans == s.plans && t.issued == s.issued && t.runs == s.runs && s.consumed <= t.consumed
    ensures Kept(s, t)
  {
  }

  lemma PhaseKept(s: System, run: nat, phase: Phase)
    requires run < |s.runs|
    ensures Kept(s, WithPhase(s, run, phase))
  {
  }

  /** Creating the marker of a plan that has none. */
  lemma MarkerKeeps(p: Platform, s: System, id: string)
    requires Invariant(p, s) && id in s.plans
    ensures Invariant(p, s.(consumed := s.consumed + {id}))
  {
    var t := s.(consumed := s.consumed + {id});
    StaysKept(s, t);
    hide RunsSound, RecordsOk, Kept, OneOwner;
    OthersSound(p, s, t, -1);
    RecordsKept(p, s, t);
  }

  /** The run that created the marker owns the plan, and no other run does. */
  lemma OwnerKeeps(p: Platform, s: System, run: nat)
    requires Invariant(p, s) && Running(s, run) && s.runs[run].phase.Admitted? && s.runs[run].id !in s.consumed
    ensures Invariant(p, DoConsume(s, run, Created))
  {
    hide Admits, Usable, Justified, Reported;
    var t, e := DoConsume(s, run, Created), s.runs[run];
    assert Sound(p, s, e);
    NewOwner(p, s, run);
    OwnersConsumed(p, s);
    hide RunsSound, RecordsOk, Sound, Honest, Kept;
    OthersSound(p, s, t, run);
    RecordsKept(p, s, t);
  }

  lemma NewOwner(p: Platform, s: System, run: nat)
    requires Running(s, run) && s.runs[run].phase.Admitted? && Sound(p, s, s.runs[run])
    requires s.runs[run].id !in s.consumed && s.runs[run].id in s.issued && s.issued[s.runs[run].id] == []
    ensures var t := DoConsume(s, run, Created); Sound(p, t, t.runs[run]) && Kept(s, t)
  {
    hide Admits, Usable;
  }

  lemma OwnersConsumed(p: Platform, s: System)
    requires RunsSound(p, s)
    ensures forall i | 0 <= i < |s.runs| && s.runs[i].phase.Owner? :: s.runs[i].id in s.consumed
  {
    forall i | 0 <= i < |s.runs| && s.runs[i].phase.Owner? ensures s.runs[i].id in s.consumed {
      OwnerFresh(p, s, s.runs[i]);
    }
  }

  lemma ConsumeKeeps(p: Platform, s: System, run: nat, marking: Marking)
    requires Invariant(p, s) && Running(s, run)
    ensures Invariant(p, DoConsume(s, run, marking))
  {
    var e := s.runs[run];
    if e.phase.Admitted? {
      assert Sound(p, s, e);
      assert e.id in s.plans;
      if e.id in s.consumed || marking.NotCreated? {
        PhaseKeeps(p, s, run, Ended);
      } else if marking.Created? {
        OwnerKeeps(p, s, run);
      } else {
        MarkerKeeps(p, s, e.id);
        PhaseKeeps(p, s.(consumed := s.consumed + {e.id}), run, Ended);
      }
    }
  }

  lemma MutateKeeps(p: Platform, s: System, run: nat, works: bool, told: bool)
    requires Invariant(p, s) && Running(s, run)
    ensures Invariant(p, DoMutate(s, run, works, told))
  {
    hide Command, Admits, Usable;
    var t, e := DoMutate(s, run, works, told), s.runs[run];
    if e.phase.Owner? && e.phase.marked && e.id in s.issued {
      assert Sound(p, s, e);
      OwnerFresh(p, s, e);
      var m := MutationOf(s, run, works, told);
      assert s.issued[e.id] + [m] == [m];
      hide Effect;
      RecordKeeps(p, s, t, run, m);
    }
  }

  /** The state after a run has issued its command. */
  ghost predicate Recorded(s: System, t: System, run: nat, m: Mutation)
    requires run < |s.runs|
  {
    var next := s.runs[run].(phase := if m.Accepted() then Issued(m.plan) else Ended);
    t == s.(runs := s.runs[run := next], repo := t.repo, issued := s.issued[s.runs[run].id := [m]])
  }

  lemma RecordKeeps(p: Platform, s: System, t: System, run: nat, m: Mutation)
    requires Invariant(p, s) && run < |s.runs| && s.runs[run].phase.Owner? && s.runs[run].phase.marked
    requires m == MutationOf(s, run, m.works, m.told) && Recorded(s, t, run, m)
    ensures Invariant(p, t)
  {
    hide Admits, Usable, Effect, Command, Justified, Reported;
    var e := s.runs[run];
    assert Sound(p, s, e);
    OwnerFresh(p, s, e);
    OwnerEnds(s.runs, run, t.runs[run].phase);
    RecordIsSound(p, s, t, run, m);
    hide RunsSound, RecordsOk, Sound, Honest, OneOwner, Kept;
    OthersSound(p, s, t, run);
    MutationKept(p, s, t, e.id);
  }

  lemma RecordIsSound(p: Platform, s: System, t: System, run: nat, m: Mutation)
    requires run < |s.runs| && s.runs[run].phase.Owner? && s.runs[run].phase.marked && Sound(p, s, s.runs[run])
    requires m == MutationOf(s, run, m.works, m.told) && Recorded(s, t, run, m)
    ensures Kept(s, t) && Sound(p, t, t.runs[run]) && Justified(p, t, s.runs[run].id, m)
  {
    hide Admits, Usable, Effect, Command;
    OwnerFresh(p, s, s.runs[run]);
  }

  lemma OwnerEnds(runs: seq<Execution>, run: nat, phase: Phase)
    requires OneOwner(runs) && run < |runs| && !phase.Owner?
    ensures OneOwner(runs[run := runs[run].(phase := phase)])
    ensures forall i | 0 <= i < |runs| && i != run && runs[run].phase.Owner? && runs[i].phase.Owner? ::
              runs[i].id != runs[run].id
  {
  }

  /** One more mutation, for a plan that had none. */
  lemma MutationKept(p: Platform, s: System, t: System, id: string)
    requires Kept(s, t) && RecordsOk(p, s) && t.reports == s.reports
    requires id in t.issued && |t.issued[id]| == 1 && id in t.consumed && Justified(p, t, id, t.issued[id][0])
    requires forall x | x in t.issued && x != id :: x in s.issued && t.issued[x] == s.issued[x]
    ensures RecordsOk(p, t)
  {
    forall x | x in t.issued && t.issued[x] != [] && x != id
      ensures Justified(p, t, x, t.issued[x][0]) && x in t.consumed
    {
      JustifiedKept(p, s, t, x, s.issued[x][0]);
    }
    ReportsKept(p, s, t);
    hide Justified, ReportsOk;
  }

  lemma ReportKeeps(p: Platform, s: System, run: nat, clean: bool, tracked: Option<Commit>, counts: bool)
    requires Invariant(p, s) && Running(s, run)
    ensures Invariant(p, DoReport(p, s, run, clean, tracked, counts))
  {
    hide Confirms, Command;
    var t, e := DoReport(p, s, run, clean, tracked, counts), s.runs[run];
    if e.phase.Checking? {
      assert Sound(p, s, e);
      PhaseKeeps(p, s, run, Ended);
      var ended := WithPhase(s, run, Ended);
      if t != ended {
        assert Reported(p, ended, e.id, t.reports[e.id]);
        hide Observe;
        SuccessKeeps(p, ended, t, e.id);
      }
    }
  }

  lemma SuccessKeeps(p: Platform, s: System, t: System, id: string)
    requires Invariant(p, s) && t == s.(reports := t.reports) && id in t.reports && Reported(p, s, id, t.reports[id])
    requires t.reports == s.reports[id := t.reports[id]]
    ensures Invariant(p, t)
  {
    StaysKept(s, t);
    hide RunsSound, Kept, Reported, IssuedOk, OneOwner;
    OthersSound(p, s, t, -1);
    IssuedKept(p, s, t);
    forall x | x in t.reports ensures Reported(p, t, x, t.reports[x]) { ReportedKept(p, s, t, x, t.reports[x]); }
  }

  lemma EndedSound(p: Platform, s: System, e: Execution)
    requires e.phase.Ended? || e.phase.Begun?
    ensures Sound(p, s, e)
  {
  }

  /** Steps that begin or end executions, or happen elsewhere. */
  lemma OuterKeeps(p: Platform, s: System, t: System)
    requires Invariant(p, s) && t == s.(runs := t.runs, repo := t.repo) && Kept(s, t)
    requires forall i | 0 <= i < |t.runs| ::
               t.runs[i].phase.Ended? || t.runs[i].phase.Begun? || (i < |s.runs| && t.runs[i] == s.runs[i])
    ensures Invariant(p, t)
  {
    hide Sound, RecordsOk, Kept;
    forall i | 0 <= i < |t.runs| ensures Sound(p, t, t.runs[i]) {
      var e := t.runs[i];
      if e.phase.Ended? || e.phase.Begun? { EndedSound(p, t, e); }
      else {
        if e.phase.Owner? { OwnerFresh(p, s, e); }
        SoundKept(p, s, t, e);
      }
    }
    RecordsKept(p, s, t);
  }

  lemma StepKeepsInvariant(p: Platform, s: System, step: Step)
    requires Invariant(p, s)
    ensures Invariant(p, Apply(p, s, step))
  {
    hide Admits, Usable, Command, Preview, Invariant, Sound, Confirms;
    match step
    case Issue(id, action, identity, o, answers, now) =>
      IssueKeeps(p, s, id, Preview(p, action, o, answers, identity, now));
    case Consume(run, marking) => if Running(s, run) { ConsumeKeeps(p, s, run, marking); }
    case MarkUsed(run, works) => if Running(s, run) { MarkKeeps(p, s, run, works); }
    case Mutate(run, works, told) => if Running(s, run) { MutateKeeps(p, s, run, works, told); }
    case Report(run, clean, tracked, counts) => if Running(s, run) { ReportKeeps(p, s, run, clean, tracked, counts); }
    case _ => PlainStepKeeps(p, s, step);
  }

  lemma PlainStepKeeps(p: Platform, s: System, step: Step)
    requires Invariant(p, s) && !step.Issue? && !step.Consume? && !step.MarkUsed? && !step.Mutate? && !step.Report?
    ensures Invariant(p, Apply(p, s, step))
  {
    if step.Begin? || step.Crash? || step.Elsewhere? { OuterStepKeeps(p, s, step); }
    else if Running(s, step.run) {
      match step
      case ReadPlan(run) => ReadKeeps(p, s, run);
      case Look(run, o, answers) => LookKeeps(p, s, run, o, answers);
      case LookBack(run) => LookBackKeeps(p, s, run);
      case GiveUp(run) =>
        EndedSound(p, s, s.runs[run].(phase := Ended));
        PhaseKeeps(p, s, run, Ended);
    }
    hide Invariant, DoRead, DoLook, DoLookBack, WithPhase;
  }

  lemma OuterStepKeeps(p: Platform, s: System, step: Step)
    requires Invariant(p, s) && (step.Begin? || step.Crash? || step.Elsewhere?)
    ensures Invariant(p, Apply(p, s, step))
  {
    hide Invariant;
    var t := Apply(p, s, step);
    OuterKept(p, s, step);
    hide Kept;
    OuterKeeps(p, s, t);
  }

  lemma OuterKept(p: Platform, s: System, step: Step)
    requires step.Begin? || step.Crash? || step.Elsewhere?
    ensures Kept(s, Apply(p, s, step))
  {
  }

  lemma ReadKeeps(p: Platform, s: System, run: nat)
    requires Invariant(p, s) && Running(s, run)
    ensures Invariant(p, DoRead(s, run))
  {
    var e := s.runs[run];
    if e.phase.Begun? {
      if e.id in s.plans && Usable(s.plans[e.id], e.action, e.identity, e.now) {
        PhaseKeeps(p, s, run, Accepted(s.plans[e.id]));
      } else {
        PhaseKeeps(p, s, run, Ended);
      }
    }
  }

  lemma LookKeeps(p: Platform, s: System, run: nat, o: Observation, answers: bool)
    requires Invariant(p, s) && Running(s, run)
    ensures Invariant(p, DoLook(p, s, run, o, answers))
  {
    hide Admits;
    var e := s.runs[run];
    if e.phase.Accepted? {
      assert Sound(p, s, e);
      if Admits(p, e.phase.plan, o, answers) { PhaseKeeps(p, s, run, Admitted(e.phase.plan, o, answers)); }
      else { PhaseKeeps(p, s, run, Ended); }
    }
  }

  lemma LookBackKeeps(p: Platform, s: System, run: nat)
    requires Invariant(p, s) && Running(s, run)
    ensures Invariant(p, DoLookBack(s, run))
  {
    hide Command;
    var e := s.runs[run];
    if e.phase.Issued? {
      assert Sound(p, s, e);
      PhaseKeeps(p, s, run, Checking(e.phase.plan, s.repo));
    }
  }

  /** Every reachable state satisfies the invariant, for every schedule of steps and crashes. */
  lemma {:induction false} AlwaysInvariant(p: Platform, repo: Repo, steps: seq<Step>)
    ensures Invariant(p, ApplyAll(p, Initial(repo), steps))
  {
    if steps != [] {
      AlwaysInvariant(p, repo, steps[..|steps| - 1]);
      StepKeepsInvariant(p, ApplyAll(p, Initial(repo), steps[..|steps| - 1]), steps[|steps| - 1]);
    }
  }

  // -------------------------------------------------------------- whole runs

  /**
   The mutation was made by an execution of this plan that found it unexpired, unused and its own,
   marked it used, and saw the plan's branch, head and remote head, with the ancestor relation the
   action needs.
   */
  ghost predicate Deserved(p: Platform, s: System, id: string, m: Mutation) {
    && m.run < |s.runs| && s.runs[m.run].id == id && id in s.plans && m.plan == Fresh(s.plans[id]) && s.plans[id].used
    && Usable(m.plan, s.runs[m.run].action, s.runs[m.run].identity, s.runs[m.run].now)
    && Admits(p, m.plan, m.seen, m.answers)
    && Related(m.plan.action, m.plan.head, m.plan.remoteHead)
  }

  lemma JustifiedIsDeserved(p: Platform, s: System, id: string, m: Mutation)
    requires Justified(p, s, id, m)
    ensures Deserved(p, s, id, m)
  {
    AdmittedIsRelated(p, m.plan, m.seen, m.answers);
    hide Related, Admits, Usable, Effect;
  }

  /**
   Plans are single-use: whatever the schedule, at most one merge or push is issued in a plan's
   name, and it is deserved.
   */
  lemma SingleUse(p: Platform, repo: Repo, steps: seq<Step>, id: string)
    ensures var s := ApplyAll(p, Initial(repo), steps);
            id in s.issued ==>
              && |s.issued[id]| <= 1
              && forall m | m in s.issued[id] ::
                   && m.run < |s.runs| && s.runs[m.run].id == id
                   && id in s.plans && s.plans[id] == m.plan.(used := true) && !m.plan.used
                   && s.runs[m.run].now < m.plan.expiresAt && s.runs[m.run].action == m.plan.action
                   && s.runs[m.run].identity == m.plan.identity
                   && m.seen.branch == m.plan.branch != "" && m.seen.head == m.plan.head
                   && m.seen.remoteHead == m.plan.remoteHead && m.seen.clean
                   && (m.plan.action.FastForward? ==>
                         && m.plan.remoteHead.Some?
                         && (m.plan.head.Some? ==> m.plan.head.value in Reach(m.plan.remoteHead.value)))
                   && (m.plan.action.Publish? ==>
                         && m.plan.head.Some?
                         && (m.plan.remoteHead.Some? ==> m.plan.remoteHead.value in Reach(m.plan.head.value)))
  {
    Deserving(p, repo, steps, id);
    var s := ApplyAll(p, Initial(repo), steps);
    hide ApplyAll, Admits;
    if id in s.issued && s.issued[id] != [] {
      var m := s.issued[id][0];
      assert m in s.issued[id] && Deserved(p, s, id, m);
      if m.plan.action.FastForward? { FastForwardAdmitted(p, m.plan, m.seen, m.answers); }
      else { PublishAdmitted(p, m.plan, m.seen, m.answers); }
    }
  }

  lemma Deserving(p: Platform, repo: Repo, steps: seq<Step>, id: string)
    ensures var s := ApplyAll(p, Initial(repo), steps);
            id in s.issued ==> |s.issued[id]| <= 1 && forall m | m in s.issued[id] :: Deserved(p, s, id, m)
  {
    hide Deserved, Justified, Reported, RunsSound, OneOwner, ApplyAll, Apply;
    AlwaysInvariant(p, repo, steps);
    var s := ApplyAll(p, Initial(repo), steps);
    if id in s.issued && s.issued[id] != [] {
      JustifiedIsDeserved(p, s, id, s.issued[id][0]);
    }
  }

  /**
   Where the merge or push of a plan ends, whatever others have done to the repositories since the
   checks: the planned commit is on the planned branch exactly when the repositories it met let it
   land, and they do if they still were as planned.
   */
  lemma MutationLands(p: Platform, repo: Repo, steps: seq<Step>, id: string)
    ensures var s := ApplyAll(p, Initial(repo), steps);
            id in s.issued ==> forall m | m in s.issued[id] ::
              && m.after == Effect(m.plan, m.before, m.works)
              && (m.works ==> (Landed(m.plan, m.after) <==> Lands(m.plan, m.before)))
              && (m.works && AsPlanned(m.plan, m.before) ==> Landed(m.plan, m.after) && (m.Accepted() <==> m.told))
  {
    Deserving(p, repo, steps, id);
    AlwaysInvariant(p, repo, steps);
    hide RunsSound, OneOwner, ApplyAll, Apply, Effect, Lands, Landed, AsPlanned, Command, ReportsOk;
    hide Usable, Admits, Related, Honest, Inspect;
    var s := ApplyAll(p, Initial(repo), steps);
    if id in s.issued && s.issued[id] != [] {
      var m := s.issued[id][0];
      assert m in s.issued[id] && Deserved(p, s, id, m);
      assert Justified(p, s, id, m);
      LandsIff(m.plan, m.before);
      if AsPlanned(m.plan, m.before) { PlannedLands(m.plan, m.before); }
    }
  }

  /** What a reported success of a plan means, `m` being the command that was issued for it. */
  ghost predicate Truthful(r: Success, m: Mutation) {
    && m.plan == r.plan && m.Accepted() && Target(r.plan).Some? && r.seen.clean
    && HeadOf(r.local.heads, r.local.current) == Target(r.plan) == HeadOf(r.remote.remote, r.local.current)
    && (r.plan.action.Publish? ==> r.local.current == r.plan.branch)
    && (r.plan.action.FastForward? && r.local == m.after ==>
          (HeadOf(r.local.heads, r.plan.branch) == Target(r.plan)
           <==> m.before.current == r.plan.branch || HeadOf(m.before.heads, r.plan.branch) == Target(r.plan)))
  }

  /**
   Success is reported only after the one command of the plan was accepted. What was read then is
   the planned commit on both sides of the branch that was checked out. For a publication that is
   the planned branch. For a fast-forward that nobody disturbed since, the planned branch holds the
   commit exactly when it was the one checked out at the command, or held it before.
   */
  lemma SuccessReported(p: Platform, repo: Repo, steps: seq<Step>, id: string)
    ensures var s := ApplyAll(p, Initial(repo), steps);
            id in s.reports ==>
              && id in s.issued && |s.issued[id]| == 1
              && var r, m := s.reports[id], s.issued[id][0];
              && m.plan == r.plan && m.works && m.told && Command(m.plan, m.before).Some?
              && r.seen.clean
              && (r.plan.action.FastForward? ==>
                    && r.plan.remoteHead.Some?
                    && HeadOf(r.local.heads, r.local.current) == r.plan.remoteHead
                    && HeadOf(r.remote.remote, r.local.current) == r.plan.remoteHead)
              && (r.plan.action.Publish? ==>
                    && r.plan.head.Some? && r.local.current == r.plan.branch
                    && HeadOf(r.local.heads, r.plan.branch) == r.plan.head
                    && HeadOf(r.remote.remote, r.plan.branch) == r.plan.head)
              && (r.plan.action.FastForward? && r.local == m.after ==>
                    (HeadOf(r.local.heads, r.plan.branch) == r.plan.remoteHead <==>
                     || m.before.current == r.plan.branch
                     || HeadOf(m.before.heads, r.plan.branch) == r.plan.remoteHead))
  {
    Deserving(p, repo, steps, id);
    AlwaysInvariant(p, repo, steps);
    hide RunsSound, OneOwner, ApplyAll, Apply, Usable, Admits, Confirms, Effect, Command;
    var s := ApplyAll(p, Initial(repo), steps);
    if id in s.reports {
      assert Reported(p, s, id, s.reports[id]);
      var m := s.issued[id][0];
      assert m in s.issued[id] && Deserved(p, s, id, m) && Justified(p, s, id, m);
      ReportIsTruthful(p, s.reports[id], m);
    }
  }

  lemma ReportIsTruthful(p: Platform, r: Success, m: Mutation)
    requires m.plan == r.plan && m.Accepted() && m.after == Effect(m.plan, m.before, m.works)
    requires Related(r.plan.action, r.plan.head, r.plan.remoteHead) && Confirms(p, r.plan, r.seen)
    requires r.seen == Observe(r.local, r.remote, r.seen.clean, r.seen.tracked, r.seen.counts)
    ensures Truthful(r, m)
  {
  }

  /** Exactly when an execution goes on after reading its plan: it is there, unused, unexpired and its own. */
  lemma ReadPlanEnds(p: Platform, s: System, run: nat)
    requires run < |s.runs| && s.runs[run].phase.Begun?
    ensures var e, t := s.runs[run], Apply(p, s, ReadPlan(run));
            var phase := t.runs[run].phase;
            && (phase.Ended? <==>
                || e.id !in s.plans || s.plans[e.id].used || s.plans[e.id].expiresAt <= e.now
                || s.plans[e.id].action != e.action || s.plans[e.id].identity != e.identity)
            && (!phase.Ended? ==> phase == Accepted(s.plans[e.id]))
            && t == WithPhase(s, run, phase)
  {
  }

  /** A preview creates the file of its plan, never over another one, and does nothing else. */
  lemma IssueCreates(
      p: Platform, s: System, id: string, action: Action, identity: Identity, o: Observation, answers: bool, now: int)
    ensures var plan, t := Preview(p, action, o, answers, identity, now),
                           Apply(p, s, Issue(id, action, identity, o, answers, now));
            && t.repo == s.repo && t.runs == s.runs && t.consumed == s.consumed
            && t.plans == (if plan.Some? && id !in s.plans then s.plans[id := plan.value] else s.plans)
  {
    hide Preview;
  }

  /** An execution of a plan that has read nothing yet, and nothing else. */
  function Alone(repo: Repo, id: string, plan: Plan, now: int): System {
    System(
      map[id := plan], {}, repo, [Execution(id, plan.action, plan.identity, now, Begun)], map[id := []], map[])
  }

  /** The steps of an execution up to its command. */
  function UpToCommand(o: Observation, answers: bool): seq<Step> {
    [ReadPlan(0), Look(0, o, answers), Consume(0, Created), MarkUsed(0, true)]
  }

  /** An execution about to issue its command. */
  function Ready(repo: Repo, id: string, plan: Plan, now: int, o: Observation, answers: bool): System {
    System(
      map[id := plan.(used := true)], {id}, repo,
      [Execution(id, plan.action, plan.identity, now, Owner(plan, o, answers, true))], map[id := []], map[])
  }

  lemma ReachesCommand(p: Platform, repo: Repo, id: string, plan: Plan, now: int, o: Observation, answers: bool)
    requires !plan.used && now < plan.expiresAt && Admits(p, plan, o, answers)
    ensures ApplyAll(p, Alone(repo, id, plan, now), UpToCommand(o, answers)) == Ready(repo, id, plan, now, o, answers)
  {
    hide Admits, ApplyAll, Effect, Command, Confirms, Preview;
    var s, e := Alone(repo, id, plan, now), Execution(id, plan.action, plan.identity, now, Begun);
    var s1 := s.(runs := [e.(phase := Accepted(plan))]);
    assert Apply(p, s, ReadPlan(0)) == s1;
    var s2 := s.(runs := [e.(phase := Admitted(plan, o, answers))]);
    assert Apply(p, s1, Look(0, o, answers)) == s2;
    var s3 := s.(runs := [e.(phase := Owner(plan, o, answers, false))], consumed := {id});
    assert Apply(p, s2, Consume(0, Created)) == s3;
    assert Apply(p, s3, MarkUsed(0, true)) == Ready(repo, id, plan, now, o, answers);
    FourSteps(p, s, ReadPlan(0), Look(0, o, answers), Consume(0, Created), MarkUsed(0, true));
  }

  lemma FourSteps(p: Platform, s: System, a: Step, b: Step, c: Step, d: Step)
    ensures ApplyAll(p, s, [a, b, c, d]) == Apply(p, Apply(p, Apply(p, Apply(p, s, a), b), c), d)
  {
    hide Apply;
    assert [a, b, c, d][..3] == [a, b, c] && [a, b, c][..2] == [a, b] && [a, b][..1] == [a] && [a][..0] == [];
    assert ApplyAll(p, s, [a]) == Apply(p, s, a);
    assert ApplyAll(p, s, [a, b]) == Apply(p, ApplyAll(p, s, [a]), b);
    assert ApplyAll(p, s, [a, b, c]) == Apply(p, ApplyAll(p, s, [a, b]), c);
  }

  /** How the command and the inspection after it go, apart from the repositories. */
  datatype Ending = Ending(works: bool, told: bool, clean: bool, tracked: Option<Commit>, counts: bool) {
    /** The command works, the checkout is clean, and the inspection does not fail for want of counts. */
    predicate Smooth(p: Platform, target: Option<Commit>) {
      works && told && clean && (counts || p.Windows? || tracked != target)
    }
  }

  /** The command and the inspection after it, on repositories that somebody may have changed before. */
  function FromCommand(r: Repo, end: Ending): seq<Step> {
    [Elsewhere(r), Mutate(0, end.works, end.told), LookBack(0), Report(0, end.clean, end.tracked, end.counts)]
  }

  /**
   What an execution that is ready does on repositories `r`, if nobody disturbs it from there on:
   it issues its command, and reports success exactly when Git accepts the command, all goes
   smoothly, and the branch checked out in `r` then holds the planned commit on both sides, and for
   a publication is the planned branch.
   */
  lemma FromCommandOn(
      p: Platform, repo: Repo, r: Repo, id: string, plan: Plan, now: int, o: Observation, answers: bool, end: Ending)
    requires Related(plan.action, plan.head, plan.remoteHead)
    ensures var t := ApplyAll(p, Ready(repo, id, plan, now, o, answers), FromCommand(r, end));
            var after := Effect(plan, r, end.works);
            && t.repo == after
            && (id in t.reports <==>
                && Command(plan, r).Some? && end.works && end.told && end.clean
                && (end.counts || p.Windows? || end.tracked != Target(plan))
                && r.current != "" && (plan.action.Publish? ==> r.current == plan.branch)
                && HeadOf(after.heads, r.current) == Target(plan) == HeadOf(after.remote, r.current))
  {
    var s := Ready(repo, id, plan, now, o, answers);
    var s1 := s.(repo := r);
    assert Apply(p, s, Elsewhere(r)) == s1;
    var m := MutationOf(s1, 0, end.works, end.told);
    var none: seq<Mutation> := [];
    assert none + [m] == [m] && s1.issued[id] == none;
    var phase := if m.Accepted() then Issued(plan) else Ended;
    var s2 := WithPhase(s1, 0, phase).(repo := m.after, issued := map[id := [m]]);
    assert Apply(p, s1, Mutate(0, end.works, end.told)) == s2;
    hide Command;
    FourSteps(
      p, s, Elsewhere(r), Mutate(0, end.works, end.told), LookBack(0),
      Report(0, end.clean, end.tracked, end.counts));
    ChecksAndReports(p, s2, id, plan, m.Accepted(), end);
    SameCurrent(plan, r, end.works);
  }

  lemma ChecksAndReports(p: Platform, s: System, id: string, plan: Plan, accepted: bool, end: Ending)
    requires |s.runs| == 1 && s.runs[0].id == id && s.runs[0].phase == (if accepted then Issued(plan) else Ended)
    requires s.reports == map[] && Target(plan).Some?
    ensures var t := Apply(p, Apply(p, s, LookBack(0)), Report(0, end.clean, end.tracked, end.counts));
            var o := Observe(s.repo, s.repo, end.clean, end.tracked, end.counts);
            t.repo == s.repo && (id in t.reports <==> accepted && Confirms(p, plan, o))
    ensures Confirms(p, plan, Observe(s.repo, s.repo, end.clean, end.tracked, end.counts)) <==>
            && end.clean && (end.counts || p.Windows? || end.tracked != Target(plan))
            && s.repo.current != "" && (plan.action.Publish? ==> s.repo.current == plan.branch)
            && HeadOf(s.repo.heads, s.repo.current) == Target(plan) == HeadOf(s.repo.remote, s.repo.current)
  {
  }

  /** No command checks out another branch. */
  lemma SameCurrent(plan: Plan, r: Repo, works: bool)
    ensures Effect(plan, r, works).current == r.current
  {
  }

  /** If the repositories are as planned, an execution that nobody disturbs and that goes smoothly reports success. */
  lemma QuietRunSucceeds(
      p: Platform, r: Repo, id: string, plan: Plan, now: int, o: Observation, answers: bool, end: Ending)
    requires !plan.used && now < plan.expiresAt && Admits(p, plan, o, answers) && AsPlanned(plan, r)
    ensures var ready := ApplyAll(p, Alone(r, id, plan, now), UpToCommand(o, answers));
            var t := ApplyAll(p, ready, FromCommand(r, end));
            && (end.works ==> Landed(plan, t.repo))
            && (id in t.reports <==> end.Smooth(p, Target(plan)))
  {
    AdmittedIsRelated(p, plan, o, answers);
    hide *;
    ReachesCommand(p, r, id, plan, now, o, answers);
    FromCommandOn(p, r, r, id, plan, now, o, answers, end);
    PlannedLands(plan, r);
    LandsIff(plan, r);
    SameBranch(plan, r);
    SmoothMeans(p, end, Target(plan));
  }

  lemma SmoothMeans(p: Platform, end: Ending, target: Option<Commit>)
    ensures end.Smooth(p, target) <==>
            end.works && end.told && end.clean && (end.counts || p.Windows? || end.tracked != target)
  {
  }

  lemma SameBranch(plan: Plan, r: Repo)
    requires AsPlanned(plan, r)
    ensures r.current == plan.branch
  {
  }

  lemma AdmittedIsRelated(p: Platform, plan: Plan, o: Observation, answers: bool)
    requires Admits(p, plan, o, answers)
    ensures Related(plan.action, plan.head, plan.remoteHead) && plan.branch != ""
  {
    hide Related, Answered;
    AnsweredIsRelated(p, plan.action, o, true, answers);
  }

  /**
   A fast-forward may be reported as a success although the planned branch has not moved: somebody
   checks out another branch that the merge moves just as well, with the same commit at the remote.
   */
  lemma SuccessOnOtherBranch(
      p: Platform, repo: Repo, r: Repo, id: string, plan: Plan, now: int, o: Observation, answers: bool, end: Ending)
    requires end.Smooth(p, plan.remoteHead)
    requires plan.action.FastForward? && Related(FastForward, plan.head, plan.remoteHead)
    requires r.current != plan.branch && r.current != "" && HeadOf(r.heads, plan.branch) != plan.remoteHead
    requires HeadOf(r.remote, r.current) == plan.remoteHead
    requires r.current in r.heads ==> r.heads[r.current] in Reach(plan.remoteHead.value)
    ensures var t := ApplyAll(p, Ready(repo, id, plan, now, o, answers), FromCommand(r, end));
            id in t.reports && !Landed(plan, t.repo)
  {
    FromCommandOn(p, repo, r, id, plan, now, o, answers, end);
    hide ApplyAll, Ready, FromCommand;
  }

  const FIRST := Commit("first", [])

  const SECOND := Commit("second", [FIRST])

  function MainPlan(identity: Identity): Plan {
    Plan(FastForward, identity, "main", Some(FIRST), Some(SECOND), PLAN_TTL, false)
  }

  const ON_MAIN := Observation("main", Some(FIRST), true, Some(SECOND), Some(SECOND), true)

  const SMOOTH := Ending(true, true, true, Some(SECOND), true)

  /** Two branches at the first commit, both at the second one at the remote. */
  function TwoBranches(current: string): Repo {
    Repo(current, map["main" := FIRST, "feature" := FIRST], map["main" := SECOND, "feature" := SECOND])
  }

  function PlanAndBegin(identity: Identity): seq<Step> {
    [Issue("plan", FastForward, identity, ON_MAIN, true, 0), Begin("plan", FastForward, identity, 0)]
  }

  lemma FirstBeforeSecond()
    ensures FIRST in Reach(SECOND) && FIRST != SECOND
  {
    assert SECOND.parents[0] == FIRST && FIRST in Reach(FIRST);
    assert FIRST in ReachAny([FIRST]);
  }

  lemma MainPlanIssued(p: Platform, identity: Identity)
    ensures Preview(p, FastForward, ON_MAIN, true, identity, 0) == Some(MainPlan(identity))
    ensures Admits(p, MainPlan(identity), ON_MAIN, true)
  {
    FirstBeforeSecond();
    NoSurplus(FIRST, SECOND);
  }

  lemma MainPlanBegun(p: Platform, identity: Identity)
    ensures ApplyAll(p, Initial(TwoBranches("main")), PlanAndBegin(identity))
         == Alone(TwoBranches("main"), "plan", MainPlan(identity), 0)
  {
    MainPlanIssued(p, identity);
    hide Preview, TwoBranches;
    var s := Initial(TwoBranches("main"));
    var issue := Issue("plan", FastForward, identity, ON_MAIN, true, 0);
    var begin := Begin("plan", FastForward, identity, 0);
    assert [issue, begin][..1] == [issue] && [issue][..0] == [];
    var s1 := Apply(p, s, issue);
    assert ApplyAll(p, s, [issue]) == s1 by { assert ApplyAll(p, s, [issue][..0]) == s; }
    assert s1 == s.(plans := map["plan" := MainPlan(identity)], issued := map["plan" := []]);
    assert Apply(p, s1, begin).runs == [Execution("plan", FastForward, identity, 0, Begun)];
  }

  lemma {:induction false} ApplyConcat(p: Platform, s: System, a: seq<Step>, b: seq<Step>)
    ensures ApplyAll(p, s, a + b) == ApplyAll(p, ApplyAll(p, s, a), b)
  {
    hide Apply;
    if b == [] {
      assert a + b == a;
    } else {
      assert (a + b)[..|a + b| - 1] == a + b[..|b| - 1];
      ApplyConcat(p, s, a, b[..|b| - 1]);
    }
  }

  /** That state is reached: a plan for "main" is executed and "feature", at the same commit, has been checked out. */
  lemma SuccessWithoutLanding(p: Platform, identity: Identity)
    ensures var steps :=
              PlanAndBegin(identity) + UpToCommand(ON_MAIN, true) + FromCommand(TwoBranches("feature"), SMOOTH);
            var s := ApplyAll(p, Initial(TwoBranches("main")), steps);
            "plan" in s.reports && !Landed(MainPlan(identity), s.repo)
  {
    FirstBeforeSecond();
    MainPlanIssued(p, identity);
    var main, feature, plan := TwoBranches("main"), TwoBranches("feature"), MainPlan(identity);
    SuccessOnOtherBranch(p, main, feature, "plan", plan, 0, ON_MAIN, true, SMOOTH);
    hide *;
    MainPlanBegun(p, identity);
    ReachesCommand(p, main, "plan", plan, 0, ON_MAIN, true);
    ApplyConcat(p, Initial(main), PlanAndBegin(identity), UpToCommand(ON_MAIN, true));
    ApplyConcat(
      p, Initial(main), PlanAndBegin(identity) + UpToCommand(ON_MAIN, true), FromCommand(feature, SMOOTH));
  }

  /** Nothing but the merge or push of a plan changes the repositories, and no commit is lost by it. */
  lemma StepsMoveForward(p: Platform, s: System, step: Step, x: Commit)
    requires Invariant(p, s) && !step.Elsewhere?
    ensures var t := Apply(p, s, step);
            && (t.repo != s.repo ==>
                  && step.Mutate? && step.run < |s.runs| && s.runs[step.run].id in s.issued
                  && |t.issued[s.runs[step.run].id]| == |s.issued[s.runs[step.run].id]| + 1)
            && (Reachable(x, s.repo.heads) ==> Reachable(x, t.repo.heads))
            && (Reachable(x, s.repo.remote) ==> Reachable(x, t.repo.remote))
  {
    hide Invariant, Admits, Usable, Preview, Reachable, Confirms, Command;
    if step.Mutate? && Running(s, step.run) && s.runs[step.run].phase.Owner? {
      NothingLost(s.runs[step.run].phase.plan, s.repo, step.works, x);
    }
    hide Effect;
  }
}
