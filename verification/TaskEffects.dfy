/** What requests leave behind, told in the fields of rows and in the tables:
    which row a PATCH or a creation ends with, what it does not touch, and when
    it is accepted. */
module TaskEffects {
  import opened Prelude
  import opened BoardModel
  import opened DependencyGraph
  import opened TaskRules
  import opened TaskSafety

  // ---- what a PATCH leaves of the task ------------------------------------

  /** A task that is not staying done and has an undone dependency: an admin's
      PATCH sends it back to the inbox whatever it asked for. */
  predicate SentBack(b: Board, after: Board, t: TaskId, actor: Actor, p: Patch)
    requires t in b.tasks
  {
    && actor.Admin? && IsBlocked(after, t)
    && !(b.tasks[t].status == Finished && (p.status == None || p.status == Some(Finished)))
  }

  lemma PatchedRowIs(b: Board, t: TaskId, actor: Actor, p: Patch, env: Env) returns (row: TaskRow, deps: seq<TaskId>)
    requires WellFormed(b) && PatchTask(b, t, actor, p, env).Success?
    ensures t in b.tasks && Patched(b, t, actor, p, env, row, deps)
    ensures row == match actor
              case Lead(_) => LeadRow(b.tasks[t], p)
              case Worker(agent, _) => WorkerRow(b.tasks[t], agent, p, env.now)
              case Admin => AdminRow(b.tasks[t], p, BlockedBy(b.tasks, deps), env.now)
    ensures var after := PatchTask(b, t, actor, p, env).value;
      && t in after.tasks && after.tasks[t] == row && after.deps == b.deps[t := deps]
      && (IsBlocked(after, t) <==> BlockedBy(b.tasks, deps) != [])
  {
    row, deps := PatchShape(b, t, actor, p, env);
    var mid := WithTask(b, t, row, deps);
    NewDependenciesWellFormed(b, t, p, row);
    OnePassReconciles(mid, t, b.tasks[t].status);
    BlockedByMeansBlocked(b, t, row, deps);
    assert t !in Dependents(mid.deps, t);
    hide PatchTask, NewDependencies, WellFormed, LeadRow, WorkerRow, AdminRow;
  }

  /** The status is the one asked for, and else the old one. */
  lemma StatusAfterPatch(b: Board, t: TaskId, actor: Actor, p: Patch, env: Env)
    requires WellFormed(b) && PatchTask(b, t, actor, p, env).Success?
    ensures var after := PatchTask(b, t, actor, p, env).value;
      after.tasks[t].status ==
        if SentBack(b, after, t, actor, p) then Inbox
        else if p.status.Some? then p.status.value else b.tasks[t].status
  {
    var row, deps := PatchedRowIs(b, t, actor, p, env);
    hide PatchTask, Patched, WellFormed, IsBlocked, BlockedBy;
  }

  predicate StopsWork(p: Patch) {
    p.status == Some(Inbox) || p.status == Some(Review)
  }

  /** Who owns the task: a worker takes it by starting or finishing it and gives
      it back with inbox or review; a lead and an admin hand it to whom they name. */
  lemma OwnerAfterPatch(b: Board, t: TaskId, actor: Actor, p: Patch, env: Env)
    requires WellFormed(b) && PatchTask(b, t, actor, p, env).Success?
    ensures var before, after := b.tasks[t], PatchTask(b, t, actor, p, env).value;
      after.tasks[t].assignee ==
        if SentBack(b, after, t, actor, p) then None
        else if actor.Worker? then
          (if p.status.None? then before.assignee else if StopsWork(p) then None else Some(actor.agent))
        else if actor.Lead? && p.status == Some(Inbox) then None
        else if p.assignee.Some? then p.assignee.value
        else if actor.Admin? && StopsWork(p) then None
        else before.assignee
  {
    var row, deps := PatchedRowIs(b, t, actor, p, env);
    hide PatchTask, Patched, WellFormed, IsBlocked, BlockedBy;
  }

  /** Start times: work that starts is stamped, work that stops moves its stamp
      to the previous one, and a lead only clears it. */
  lemma TimesAfterPatch(b: Board, t: TaskId, actor: Actor, p: Patch, env: Env)
    requires WellFormed(b) && PatchTask(b, t, actor, p, env).Success?
    ensures var before, after := b.tasks[t], PatchTask(b, t, actor, p, env).value;
      && after.tasks[t].inProgressAt == (
           if SentBack(b, after, t, actor, p) || p.status == Some(Inbox) then None
           else if actor.Lead? then before.inProgressAt
           else if p.status == Some(Review) then None
           else if p.status == Some(InProgress) then Some(env.now)
           else before.inProgressAt)
      && after.tasks[t].previousInProgressAt == (
           if SentBack(b, after, t, actor, p) then None
           else if !actor.Lead? && StopsWork(p) then before.inProgressAt
           else before.previousInProgressAt)
  {
    var row, deps := PatchedRowIs(b, t, actor, p, env);
    hide PatchTask, Patched, WellFormed, IsBlocked, BlockedBy;
  }

  /** Mode and configuration are those that were sent, or the old ones. */
  lemma ModeAfterPatch(b: Board, t: TaskId, actor: Actor, p: Patch, env: Env)
    requires WellFormed(b) && PatchTask(b, t, actor, p, env).Success?
    ensures var before, after := b.tasks[t], PatchTask(b, t, actor, p, env).value;
      && after.tasks[t].mode == (if p.mode.Some? then p.mode.value else before.mode)
      && after.tasks[t].arena == (if p.arena.Some? then p.arena.value else before.arena)
      && after.tasks[t].autoSwarm == before.autoSwarm
  {
    var row, deps := PatchedRowIs(b, t, actor, p, env);
    SentFields(b, t, actor, p, env);
    hide PatchTask, Patched, WellFormed, IsBlocked, BlockedBy;
    RowModes(b.tasks[t], actor, p, BlockedBy(b.tasks, deps), env.now);
    hide LeadRow, WorkerRow, AdminRow;
  }

  lemma RowModes(row: TaskRow, actor: Actor, p: Patch, blocked: seq<TaskId>, now: Time)
    ensures var r := LeadRow(row, p);
      r.mode == row.mode && r.arena == GetOr(p.arena, row.arena) && r.autoSwarm == row.autoSwarm
    ensures actor.Worker? ==> var r := WorkerRow(row, actor.agent, p, now);
      r.mode == row.mode && r.arena == row.arena && r.autoSwarm == row.autoSwarm
    ensures var r := AdminRow(row, p, blocked, now);
      r.mode == GetOr(p.mode, row.mode) && r.arena == GetOr(p.arena, row.arena) && r.autoSwarm == row.autoSwarm
  {
  }

  /** The dependencies are the ones asked for, each once, or the old ones; a done
      task keeps its own. */
  lemma DependenciesAfterPatch(b: Board, t: TaskId, actor: Actor, p: Patch, env: Env)
    requires WellFormed(b) && PatchTask(b, t, actor, p, env).Success?
    ensures var after := PatchTask(b, t, actor, p, env).value;
      && t in b.deps && t in after.deps
      && (p.dependsOn.None? ==> after.deps[t] == b.deps[t])
      && (p.dependsOn.Some? ==>
            && b.tasks[t].status != Finished
            && Distinct(after.deps[t]) && Elements(after.deps[t]) == Elements(p.dependsOn.value))
  {
    var row, deps := PatchedRowIs(b, t, actor, p, env);
    hide PatchTask, LeadRow, WorkerRow, AdminRow, IsBlocked, CycleReachable, BlockedBy, Acyclic;
  }

  /** Only admins may send a mode, and workers no configuration either. */
  lemma SentFields(b: Board, t: TaskId, actor: Actor, p: Patch, env: Env)
    requires PatchTask(b, t, actor, p, env).Success?
    ensures p.mode.Some? ==> actor.Admin?
    ensures p.arena.Some? || p.assignee.Some? ==> !actor.Worker?
    ensures actor.Worker? ==> p.dependsOn.None?
  {
    hide NewDependencies, Gates, FinalError, Reconciled, BlockedBy, LeadAssignError, AdminAssignError;
  }

  /** Some step took task d out of done. */
  predicate Reopened(b: Board, after: Board, d: TaskId) {
    d in b.tasks && b.tasks[d].status == Finished && d in after.tasks && after.tasks[d].status != Finished
  }

  /** What a PATCH does not touch: the other tables, other dependencies, and
      other tasks, except that reopening the task parks those waiting for it. */
  lemma PatchFrame(b: Board, t: TaskId, actor: Actor, p: Patch, env: Env)
    requires WellFormed(b) && PatchTask(b, t, actor, p, env).Success?
    ensures var after := PatchTask(b, t, actor, p, env).value;
      && after.approvals == b.approvals && after.links == b.links && after.flags == b.flags
      && after.foreign == b.foreign && after.tasks.Keys == b.tasks.Keys && after.deps.Keys == b.deps.Keys
      && (forall u :: u in b.deps && u != t ==> after.deps[u] == b.deps[u])
      && (forall u :: u in b.tasks && u != t ==>
            var waits := Reopened(b, after, t) && t in b.deps[u] && b.tasks[u].status != Finished;
            after.tasks[u] == if waits then b.tasks[u].(status := Inbox, assignee := None, inProgressAt := None)
                              else b.tasks[u])
  {
    var row, deps := PatchedRowIs(b, t, actor, p, env);
    hide PatchTask, WellFormed, NewDependencies, LeadRow, WorkerRow, AdminRow;
    assert Keyed(b) by {
      WellFormedIsKeyed(b);
    }
  }

  lemma WellFormedIsKeyed(b: Board)
    requires WellFormed(b)
    ensures Keyed(b)
  {
  }

  /** What a creation adds: one row as it was asked for, not started, its
      dependencies, each once; nothing else changes. */
  lemma CreatedTaskIs(b: Board, t: TaskId, byLead: bool, n: NewTask, env: Env)
    requires WellFormed(b) && CreateTask(b, t, byLead, n, env).Success?
    ensures var after := CreateTask(b, t, byLead, n, env).value;
      && t !in b.tasks && after.tasks.Keys == b.tasks.Keys + {t}
      && after.tasks[t].status == n.status && after.tasks[t].assignee == n.assignee
      && after.tasks[t].inProgressAt == None && after.tasks[t].previousInProgressAt == None
      && after.tasks[t].mode == n.mode && after.tasks[t].autoSwarm == n.autoSwarm && after.tasks[t].arena == n.arena
      && after.deps.Keys == b.deps.Keys + {t}
      && Distinct(after.deps[t]) && Elements(after.deps[t]) == Elements(n.dependsOn)
      && (forall u :: u in b.tasks ==> after.tasks[u] == b.tasks[u])
      && (forall u :: u in b.deps ==> u == t || after.deps[u] == b.deps[u])
      && after.approvals == b.approvals && after.links == b.links && after.flags == b.flags
      && after.foreign == b.foreign
  {
    hide WellFormed, CycleReachable, CreateError, BlockedBy;
  }

  // ---- runs ---------------------------------------------------------------

  /** A request for this very task. */
  predicate Touches(step: Step, t: TaskId) {
    (step.Create? || step.Change? || step.Delete?) && step.id == t
  }

  /** The row is as it was, or was parked because a dependency was reopened. */
  ghost predicate KeptOrParked(before: TaskRow, after: TaskRow, reopened: bool) {
    after == before || (before.status != Finished && reopened && after == before.Park())
  }

  ghost predicate ReopensDependency(b: Board, step: Step, deps: seq<TaskId>) {
    exists d :: d in deps && Reopened(b, Next(b, step), d)
  }

  lemma UntouchedStep(b: Board, step: Step, t: TaskId)
    requires WellFormed(b) && t in b.tasks && !Touches(step, t)
    ensures var after := Next(b, step);
      && t in after.tasks && t in after.deps && Elements(after.deps[t]) <= Elements(b.deps[t])
      && KeptOrParked(b.tasks[t], after.tasks[t], ReopensDependency(b, step, b.deps[t]))
  {
    WellFormedIsKeyed(b);
    hide WellFormed, PatchTask, CreateTask;
    match step {
      case Create(id, byLead, n, env) =>
        if CreateTask(b, id, byLead, n, env).Success? {
          CreatedTaskIs(b, id, byLead, n, env);
        }
      case Change(id, actor, p, env) =>
        if PatchTask(b, id, actor, p, env).Success? {
          PatchFrame(b, id, actor, p, env);
          assert Reopened(b, Next(b, step), id) && id in b.deps[t] ==> ReopensDependency(b, step, b.deps[t]);
        }
      case Delete(id) => DeleteKeepsBoard(b, id);
      case _ =>
    }
  }

  /** The first m steps. */
  ghost function After(b: Board, steps: seq<Step>, m: nat): Board
    requires m <= |steps|
  {
    Run(b, steps[..m])
  }

  ghost predicate ReopenedDuring(b: Board, steps: seq<Step>, deps: seq<TaskId>) {
    exists m, d :: 0 <= m < |steps| && d in deps && Reopened(After(b, steps, m), After(b, steps, m + 1), d)
  }

  lemma ReopenedSnoc(b: Board, steps: seq<Step>, deps: seq<TaskId>)
    requires steps != []
    ensures ReopenedDuring(b, steps[..|steps| - 1], deps) ==> ReopenedDuring(b, steps, deps)
    ensures ReopensDependency(Run(b, steps[..|steps| - 1]), steps[|steps| - 1], deps) ==> ReopenedDuring(b, steps, deps)
  {
    hide Run, Reopened;
    var n := |steps| - 1;
    var front := steps[..n];
    if ReopenedDuring(b, front, deps) {
      var m, d :| 0 <= m < n && d in deps && Reopened(After(b, front, m), After(b, front, m + 1), d);
      assert front[..m] == steps[..m] && front[..m + 1] == steps[..m + 1];
      assert Reopened(After(b, steps, m), After(b, steps, m + 1), d);
    }
    if ReopensDependency(Run(b, front), steps[n], deps) {
      var d :| d in deps && Reopened(Run(b, front), Next(Run(b, front), steps[n]), d);
      LastStep(b, steps);
      assert Reopened(After(b, steps, n), After(b, steps, n + 1), d);
    }
  }

  lemma LastStep(b: Board, steps: seq<Step>)
    requires steps != []
    ensures After(b, steps, |steps|) == Next(After(b, steps, |steps| - 1), steps[|steps| - 1])
  {
    assert steps[..|steps|] == steps;
  }

  /** Over runs: between requests for a task its row stays, field by field, unless
      some dependency it had is reopened; then it may be parked instead. */
  lemma {:induction false} UntouchedTaskStays(b: Board, steps: seq<Step>, t: TaskId)
    requires WellFormed(b) && t in b.tasks && t in b.deps && forall s :: s in steps ==> !Touches(s, t)
    ensures var after := Run(b, steps);
      && t in after.tasks && t in after.deps && Elements(after.deps[t]) <= Elements(b.deps[t])
      && KeptOrParked(b.tasks[t], after.tasks[t], ReopenedDuring(b, steps, b.deps[t]))
  {
    hide WellFormed, Next, ReopenedDuring, ReopensDependency, Violations, Redirected, DependencySafe;
    if steps != [] {
      var front, last := steps[..|steps| - 1], steps[|steps| - 1];
      assert forall s :: s in front ==> s in steps;
      assert last in steps;
      UntouchedTaskStays(b, front, t);
      RunIsSafe(b, front);
      var mid := Run(b, front);
      UntouchedStep(mid, last, t);
      ReopenedSnoc(b, steps, b.deps[t]);
      FewerReopen(mid, last, mid.deps[t], b.deps[t]);
    }
  }

  lemma FewerReopen(b: Board, step: Step, some: seq<TaskId>, all: seq<TaskId>)
    requires Elements(some) <= Elements(all)
    ensures ReopensDependency(b, step, some) ==> ReopensDependency(b, step, all)
  {
    assert forall d :: d in some ==> d in Elements(some);
  }

  /** A task that a worker started is in progress, owned by that worker and
      stamped with that time until the next request for it, or until one of its
      dependencies is reopened. */
  lemma ClaimLasts(b: Board, t: TaskId, agent: AgentId, otherBoard: bool, p: Patch, env: Env, steps: seq<Step>)
    requires WellFormed(b) && PatchTask(b, t, Worker(agent, otherBoard), p, env).Success?
    requires p.status == Some(InProgress) && forall s :: s in steps ==> !Touches(s, t)
    ensures var start := PatchTask(b, t, Worker(agent, otherBoard), p, env).value;
      && t in start.deps && t in Run(start, steps).tasks
      && var row := Run(start, steps).tasks[t];
         || (row.status == InProgress && row.assignee == Some(agent) && row.inProgressAt == Some(env.now))
         || (row.Parked() && ReopenedDuring(start, steps, start.deps[t]))
  {
    var actor := Worker(agent, otherBoard);
    var start := PatchTask(b, t, actor, p, env).value;
    StepKeepsBoard(b, Change(t, actor, p, env));
    StatusAfterPatch(b, t, actor, p, env);
    OwnerAfterPatch(b, t, actor, p, env);
    TimesAfterPatch(b, t, actor, p, env);
    DependenciesAfterPatch(b, t, actor, p, env);
    hide PatchTask, WellFormed, Run, ReopenedDuring, IsBlocked;
    UntouchedTaskStays(start, steps, t);
  }
}
