/** Which PATCH requests are accepted, in terms of the tables alone. */
module TaskAcceptance {
  import opened Prelude
  import opened BoardModel
  import opened DependencyGraph
  import opened TaskRules
  import opened TaskSafety

  // ---- dependencies -------------------------------------------------------

  /** The dependencies are left alone, or the task is not done and the new ones
      exist, are not the task itself and close no cycle. */
  ghost predicate DependenciesFit(b: Board, t: TaskId, p: Patch)
    requires t in b.tasks
  {
    p.dependsOn.Some? ==>
      && b.tasks[t].status != Finished
      && t !in p.dependsOn.value && (forall d :: d in p.dependsOn.value ==> d in b.tasks)
      && Acyclic(EdgesOf(b.deps[t := p.dependsOn.value]))
  }

  /** Some dependency that the task will have is undone. */
  predicate WillWait(b: Board, t: TaskId, p: Patch) {
    exists d :: d in (if p.dependsOn.Some? then p.dependsOn.value else DepsOf(b.deps, t)) && Undone(b.tasks, d)
  }

  lemma DependenciesFitIff(b: Board, t: TaskId, p: Patch)
    requires WellFormed(b) && t in b.tasks
    ensures NewDependencies(b, t, p).Success? <==> DependenciesFit(b, t, p)
  {
    if p.dependsOn.Some? {
      var wanted := p.dependsOn.value;
      var deps := Dedupe(wanted);
      DedupeHolds(wanted);
      NothingMissing(b, deps);
      SameEdges(b, t, wanted);
      if deps == [] {
        assert forall d :: d !in wanted;
        FewerEdgesStayAcyclic(EdgesOf(b.deps), EdgesOf(b.deps[t := wanted]));
      }
      ReachableIffCyclic(b.tasks.Keys, EdgesOf(b.deps[t := deps]));
      hide Dedupe, CycleReachable, Acyclic, Missing;
    }
  }

  lemma SameEdges(b: Board, t: TaskId, wanted: seq<TaskId>)
    ensures EdgesOf(b.deps[t := Dedupe(wanted)]) == EdgesOf(b.deps[t := wanted])
  {
    assert Elements(Dedupe(wanted)) == Elements(wanted);
  }

  lemma WillWaitIff(b: Board, t: TaskId, p: Patch)
    requires t in b.tasks && NewDependencies(b, t, p).Success?
    ensures BlockedBy(b.tasks, NewDependencies(b, t, p).value) != [] <==> WillWait(b, t, p)
  {
    if p.dependsOn.Some? {
      NewDependenciesAreTheWanted(b, t, p);
    } else {
      NothingBlocks(b, DepsOf(b.deps, t));
    }
  }

  // ---- gates --------------------------------------------------------------

  /** A check of the done gate counts as passed. */
  predicate CheckHolds(arena: Option<ArenaConfig>, key: string) {
    && arena.Some? && arena.value.doneGateChecks.Some?
    && var checks := arena.value.doneGateChecks.value;
       (key == "ui_labeled" && arena.value.uiLabeled) || (key in checks && checks[key])
  }

  /** All checks that a task for the swarm needs. */
  predicate ChecksComplete(arena: Option<ArenaConfig>) {
    && CheckHolds(arena, "pr_created") && CheckHolds(arena, "ci_passed") && CheckHolds(arena, "human_reviewed")
    && (CheckHolds(arena, "ui_labeled") ==> CheckHolds(arena, "ui_screenshot_present"))
  }

  lemma ChecksCompleteIff(arena: Option<ArenaConfig>)
    ensures MissingChecks(arena) == [] <==> ChecksComplete(arena)
  {
    assert forall key :: Passed(Checks(arena), key) <==> CheckHolds(arena, key);
    if MissingChecks(arena) == [] {
      NoMissingChecks(arena);
    }
    var missing := Filter(key => !Passed(Checks(arena), key), REQUIRED_CHECKS);
    if missing != [] {
      assert missing[0] in missing;
    }
  }

  /** The PATCH asks for another status and the task gets another one. */
  predicate Moves(row: TaskRow, p: Patch, target: Status) {
    p.status.Some? && p.status != Some(row.status) && target != row.status
  }

  /** The gates between the status a task has and the one it is to get. */
  ghost predicate GatesOpen(b: Board, t: TaskId, p: Patch, target: Status, mode: TaskMode, arena: Option<ArenaConfig>)
    requires t in b.tasks
  {
    var row := b.tasks[t];
    && (Moves(row, p, target) && b.flags.blockStatusChangesWithPendingApproval ==> !HasPendingApproval(b, t))
    && (target == Finished && row.status != Finished ==>
          && (b.flags.requireReviewBeforeDone ==> row.status == Review)
          && (b.flags.requireApprovalForDone ==> HasApprovedApproval(b, t))
          && (mode == Arena || mode == ArenaNotebook || row.autoSwarm ==> ChecksComplete(arena)))
  }

  /** Entering review needs a comment, now or since the work began, by whoever
      owns the task now or owned it before. */
  predicate Commented(author: Option<AgentId>, since: Option<Time>, p: Patch, env: Env) {
    p.comment || (author.Some? && since.Some? && env.recentComment(author.value, since.value))
  }

  // ---- the three roles ----------------------------------------------------

  /** A worker's PATCH must be for the worker's board, set nothing but the status
      (and a comment or custom fields), move only a task that is free or the
      worker's own, not out of the inbox while it is blocked, and meet the gates. */
  ghost predicate WorkerMay(b: Board, t: TaskId, agent: AgentId, otherBoard: bool, p: Patch, env: Env)
    requires t in b.tasks
  {
    var row := b.tasks[t];
    && !otherBoard
    && p.dependsOn.None? && p.assignee.None? && p.mode.None? && p.arena.None? && !p.tags && !p.otherFields
    && (p.status.Some? ==>
          && !b.flags.onlyLeadCanChangeStatus
          && (row.assignee.None? || row.assignee == Some(agent))
          && (p.status != Some(Inbox) ==> !IsBlocked(b, t))
          && GatesOpen(b, t, p, p.status.value, row.mode, row.arena))
    && (p.status == Some(Review) ==> Commented(row.assignee, row.inProgressAt, p, env))
    && (p.customFields ==> env.customFieldsAccepted)
  }

  /** Whom a lead may assign: nobody, or an agent of the board that leads nothing. */
  predicate LeadMayAssign(p: Patch, env: Env) {
    p.assignee.Some? && p.assignee.value.Some? ==>
      var agent := p.assignee.value.value;
      agent in env.agents && !env.agents[agent].isLead && !env.agents[agent].otherBoard
  }

  /** A lead's PATCH must leave out comments, modes and other fields, assign and
      move only a task that will not wait, and move it only out of review, to
      done or back to the inbox, through the gates. */
  ghost predicate LeadMay(b: Board, t: TaskId, p: Patch, env: Env)
    requires t in b.tasks
  {
    var row := b.tasks[t];
    && !p.comment && p.mode.None? && !p.otherFields && (p.tags ==> env.tagsKnown)
    && DependenciesFit(b, t, p)
    && (p.assignee.Some? || p.status.Some? ==> !WillWait(b, t, p))
    && LeadMayAssign(p, env)
    && (p.status.Some? ==>
          && row.status == Review && (p.status == Some(Finished) || p.status == Some(Inbox))
          && GatesOpen(b, t, p, p.status.value, row.mode, if p.arena.Some? then p.arena.value else row.arena))
    && (p.customFields ==> env.customFieldsAccepted)
  }

  lemma LeadRowIs(row: TaskRow, p: Patch)
    ensures var after := LeadRow(row, p);
      && after.status == GetOr(p.status, row.status) && after.mode == row.mode
      && after.arena == GetOr(p.arena, row.arena) && after.autoSwarm == row.autoSwarm
  {
  }

  /** An admin's PATCH that leaves the task waiting is not refused but turned into
      a move to the inbox, unless the task stays done. */
  predicate TurnedBack(b: Board, t: TaskId, p: Patch)
    requires t in b.tasks
  {
    && WillWait(b, t, p)
    && !(b.tasks[t].status == Finished && (p.status == None || p.status == Some(Finished)))
  }

  predicate AdminMayAssign(p: Patch, env: Env) {
    p.assignee.Some? && p.assignee.value.Some? ==>
      var agent := p.assignee.value.value;
      agent in env.agents && !env.agents[agent].otherBoard
  }

  /** The owner whose comment counts when an admin moves a task to review. */
  function NewOrOldOwner(row: TaskRow, p: Patch): Option<AgentId> {
    if p.assignee.Some? && p.assignee.value.Some? then p.assignee.value else row.assignee
  }

  /** An admin's PATCH needs known tags, dependencies that fit, the gates for the
      status the task will get and, unless it is turned back, an assignee of the
      board and a comment on entering review. */
  ghost predicate AdminMay(b: Board, t: TaskId, p: Patch, env: Env)
    requires t in b.tasks
  {
    var row := b.tasks[t];
    var target := if TurnedBack(b, t, p) then Inbox else if p.status.Some? then p.status.value else row.status;
    && (p.tags ==> env.tagsKnown)
    && DependenciesFit(b, t, p)
    && GatesOpen(b, t, p, target, if p.mode.Some? then p.mode.value else row.mode,
                 if p.arena.Some? then p.arena.value else row.arena)
    && (!TurnedBack(b, t, p) ==>
          && AdminMayAssign(p, env)
          && (p.status == Some(Review) ==> Commented(NewOrOldOwner(row, p), row.inProgressAt, p, env)))
    && (p.customFields ==> env.customFieldsAccepted)
  }

  lemma AdminRowIs(row: TaskRow, p: Patch, blocked: seq<TaskId>, env: Env)
    ensures var after := AdminRow(row, p, blocked, env.now);
      && after.status == (if AdminResets(row, p, blocked) then Inbox else GetOr(p.status, row.status))
      && after.mode == GetOr(p.mode, row.mode) && after.arena == GetOr(p.arena, row.arena)
      && after.autoSwarm == row.autoSwarm
      && (!AdminResets(row, p, blocked) && p.status == Some(Review) ==>
            (ReviewCommented(row, after, p, env) <==> Commented(NewOrOldOwner(row, p), row.inProgressAt, p, env)))
  {
  }

  // ---- the reason that is given -------------------------------------------

  /** The first gate that is closed. */
  ghost function GateRefusal(b: Board, t: TaskId, p: Patch, target: Status, mode: TaskMode,
      arena: Option<ArenaConfig>): Option<Error>
    requires t in b.tasks
  {
    var row := b.tasks[t];
    var done := target == Finished && row.status != Finished;
    if Moves(row, p, target) && b.flags.blockStatusChangesWithPendingApproval && HasPendingApproval(b, t)
    then Some(PendingApprovalBlocks)
    else if done && b.flags.requireReviewBeforeDone && row.status != Review then Some(ReviewRequired)
    else if done && b.flags.requireApprovalForDone && !HasApprovedApproval(b, t) then Some(ApprovalRequired)
    else if done && (mode == Arena || mode == ArenaNotebook || row.autoSwarm) && !ChecksComplete(arena)
    then Some(EngineeringChecksMissing(MissingChecks(arena)))
    else None
  }

  lemma GateRefusalIs(b: Board, t: TaskId, p: Patch, row: TaskRow)
    requires t in b.tasks && row.autoSwarm == b.tasks[t].autoSwarm
    ensures Gates(b, t, b.tasks[t].status, row, StatusRequested(b.tasks[t], p)) ==
      GateRefusal(b, t, p, row.status, row.mode, row.arena)
  {
    ChecksCompleteIff(row.arena);
    hide MissingChecks, ChecksComplete, HasPendingApproval, HasApprovedApproval;
  }

  /** The first reason against the dependencies that a PATCH asks for. */
  ghost function DependencyRefusal(b: Board, t: TaskId, p: Patch): Option<Error>
    requires t in b.tasks
  {
    if p.dependsOn.None? then None
    else
      var wanted := p.dependsOn.value;
      if b.tasks[t].status == Finished then Some(DependenciesFrozen)
      else if t in wanted then Some(SelfDependency)
      else if exists d :: d in wanted && d !in b.tasks then Some(MissingDependencies(Missing(b, Dedupe(wanted))))
      else if !Acyclic(EdgesOf(b.deps[t := wanted])) then Some(DependencyCycle)
      else None
  }

  lemma DependencyRefusalIs(b: Board, t: TaskId, p: Patch)
    requires WellFormed(b) && t in b.tasks
    ensures DependencyRefusal(b, t, p) ==
      if NewDependencies(b, t, p).Success? then None else Some(NewDependencies(b, t, p).error)
  {
    DependenciesFitIff(b, t, p);
    if p.dependsOn.Some? {
      var wanted := p.dependsOn.value;
      DedupeHolds(wanted);
      NothingMissing(b, Dedupe(wanted));
      SameEdges(b, t, wanted);
      assert (exists d :: d in wanted && d !in b.tasks) ==> Dedupe(wanted) != [];
      hide Dedupe, CycleReachable, Acyclic, Missing, WellFormed, EdgesOf;
    }
  }

  /** The reasons that come last, for workers and admins alike. */
  ghost function FinalRefusal(gate: Option<Error>, needsComment: bool, p: Patch, env: Env): Option<Error> {
    if gate.Some? then gate
    else if needsComment then Some(CommentRequired)
    else if p.customFields && !env.customFieldsAccepted then Some(CustomFieldsRejected)
    else None
  }

  lemma FinalRefusalIs(b: Board, t: TaskId, after: TaskRow, toReview: bool, p: Patch, env: Env)
    requires t in b.tasks && after.autoSwarm == b.tasks[t].autoSwarm
    ensures FinalError(b, t, b.tasks[t], after, toReview, p, env) ==
      FinalRefusal(GateRefusal(b, t, p, after.status, after.mode, after.arena),
                   toReview && !ReviewCommented(b.tasks[t], after, p, env), p, env)
  {
    GateRefusalIs(b, t, p, after);
    hide Gates, GateRefusal, ReviewCommented;
  }

  /** What a worker is refused for, the first of these reasons; the last ones follow. */
  ghost function WorkerRuleRefusal(b: Board, t: TaskId, agent: AgentId, otherBoard: bool, p: Patch): Option<Error>
    requires t in b.tasks
  {
    var row := b.tasks[t];
    if otherBoard then Some(BoardMismatch)
    else if p.status.Some? && row.assignee.Some? && row.assignee != Some(agent) then Some(AssigneeMismatch)
    else if p.dependsOn.Some? || p.assignee.Some? || p.mode.Some? || p.arena.Some? || p.tags || p.otherFields
    then Some(WorkerFieldGate)
    else if p.status.Some? && b.flags.onlyLeadCanChangeStatus then Some(LeadOnlyStatus)
    else if p.status.Some? && p.status != Some(Inbox) && IsBlocked(b, t)
    then Some(Blocked(BlockedBy(b.tasks, DepsOf(b.deps, t))))
    else None
  }

  ghost function WorkerRefusal(b: Board, t: TaskId, agent: AgentId, otherBoard: bool, p: Patch, env: Env): Option<Error>
    requires t in b.tasks
  {
    var row := b.tasks[t];
    var target := if p.status.Some? then p.status.value else row.status;
    var rule := WorkerRuleRefusal(b, t, agent, otherBoard, p);
    if rule.Some? then rule
    else FinalRefusal(GateRefusal(b, t, p, target, row.mode, row.arena),
                      p.status == Some(Review) && !Commented(row.assignee, row.inProgressAt, p, env), p, env)
  }

  lemma WorkerRulesAre(b: Board, t: TaskId, agent: AgentId, otherBoard: bool, p: Patch)
    requires t in b.tasks
    ensures WorkerRuleError(b, b.tasks[t], BlockedBy(b.tasks, DepsOf(b.deps, t)), agent, otherBoard, p) ==
      WorkerRuleRefusal(b, t, agent, otherBoard, p)
  {
    NothingBlocks(b, DepsOf(b.deps, t));
    hide BlockedBy;
  }

  lemma WorkerPatchRefusal(b: Board, t: TaskId, agent: AgentId, otherBoard: bool, p: Patch, env: Env)
    requires t in b.tasks
    ensures var r := WorkerPatch(b, t, agent, otherBoard, p, env);
      WorkerRefusal(b, t, agent, otherBoard, p, env) == if r.Success? then None else Some(r.error)
  {
    var row := b.tasks[t];
    var after := WorkerRow(row, agent, p, env.now);
    WorkerRulesAre(b, t, agent, otherBoard, p);
    FinalRefusalIs(b, t, after, p.status == Some(Review), p, env);
    WorkerRowIs(row, agent, p, env);
    hide WorkerRuleError, WorkerRuleRefusal, FinalError, FinalRefusal, GateRefusal, Reconciled, BlockedBy, WorkerRow,
      Commented, ReviewCommented;
  }

  lemma WorkerRowIs(row: TaskRow, agent: AgentId, p: Patch, env: Env)
    ensures var after := WorkerRow(row, agent, p, env.now);
      && after.status == (if p.status.Some? then p.status.value else row.status)
      && after.mode == row.mode && after.arena == row.arena && after.autoSwarm == row.autoSwarm
      && (p.status == Some(Review) ==>
            (ReviewCommented(row, after, p, env) <==> Commented(row.assignee, row.inProgressAt, p, env)))
  {
  }

  /** Every answer to a worker's PATCH. */
  lemma WorkerRefusalIs(b: Board, t: TaskId, agent: AgentId, otherBoard: bool, p: Patch, env: Env)
    requires t in b.tasks && env.gsdAllowed
    ensures var r := PatchTask(b, t, Worker(agent, otherBoard), p, env);
      WorkerRefusal(b, t, agent, otherBoard, p, env) == if r.Success? then None else Some(r.error)
  {
    hide WorkerRefusal, LeadPatch, AdminPatch, WorkerPatch;
    WorkerPatchRefusal(b, t, agent, otherBoard, p, env);
  }

  /** What a lead is refused for once the dependencies are settled. */
  ghost function LeadRuleRefusal(b: Board, t: TaskId, p: Patch, env: Env): Option<Error>
    requires t in b.tasks
  {
    var agent := if p.assignee.Some? then p.assignee.value else None;
    if p.tags && !env.tagsKnown then Some(UnknownTags)
    else if (p.assignee.Some? || p.status.Some?) && WillWait(b, t, p) then Some(Blocked(Blockers(b, t, p)))
    else if agent.Some? && agent.value !in env.agents then Some(UnknownAgent)
    else if agent.Some? && env.agents[agent.value].isLead then Some(AgentIsLead)
    else if agent.Some? && env.agents[agent.value].otherBoard then Some(AgentOnOtherBoard)
    else if p.status.Some? && b.tasks[t].status != Review then Some(LeadStatusGate)
    else if p.status == Some(InProgress) || p.status == Some(Review) then Some(LeadTargetGate)
    else None
  }

  ghost function LeadRefusal(b: Board, t: TaskId, p: Patch, env: Env): Option<Error>
    requires t in b.tasks
  {
    var row := b.tasks[t];
    var target := if p.status.Some? then p.status.value else row.status;
    var arena := if p.arena.Some? then p.arena.value else row.arena;
    var deps, rule := DependencyRefusal(b, t, p), LeadRuleRefusal(b, t, p, env);
    if p.comment then Some(LeadCommentGate)
    else if p.mode.Some? || p.otherFields then Some(LeadFieldGate)
    else if deps.Some? then deps
    else if rule.Some? then rule
    else FinalRefusal(GateRefusal(b, t, p, target, row.mode, arena), false, p, env)
  }

  lemma LeadRulesAre(b: Board, t: TaskId, p: Patch, env: Env)
    requires t in b.tasks && NewDependencies(b, t, p).Success?
    ensures LeadRuleError(b.tasks[t], BlockedBy(b.tasks, NewDependencies(b, t, p).value), p, env) ==
      LeadRuleRefusal(b, t, p, env)
  {
    BlockersAre(b, t, p);
    hide NewDependencies, BlockedBy, Blockers, WillWait;
  }

  /** The undone ones of the dependencies that the task will have. */
  function Blockers(b: Board, t: TaskId, p: Patch): (r: seq<TaskId>)
    ensures forall d :: d in r <==>
      d in (if p.dependsOn.Some? then p.dependsOn.value else DepsOf(b.deps, t)) && Undone(b.tasks, d)
  {
    if p.dependsOn.Some? then
      DedupeHolds(p.dependsOn.value);
      BlockedBy(b.tasks, Dedupe(p.dependsOn.value))
    else BlockedBy(b.tasks, DepsOf(b.deps, t))
  }

  lemma BlockersAre(b: Board, t: TaskId, p: Patch)
    requires t in b.tasks && NewDependencies(b, t, p).Success?
    ensures BlockedBy(b.tasks, NewDependencies(b, t, p).value) == Blockers(b, t, p)
    ensures Blockers(b, t, p) != [] <==> WillWait(b, t, p)
  {
    WillWaitIff(b, t, p);
    hide Dedupe, CycleReachable, Acyclic, WillWait, BlockedBy;
  }

  lemma LeadPatchRefusal(b: Board, t: TaskId, p: Patch, env: Env)
    requires WellFormed(b) && t in b.tasks
    ensures var r := LeadPatch(b, t, p, env);
      LeadRefusal(b, t, p, env) == if r.Success? then None else Some(r.error)
  {
    var after := LeadRow(b.tasks[t], p);
    LeadRowIs(b.tasks[t], p);
    LeadGates(b, t, after, p, env);
    DependencyRefusalIs(b, t, p);
    hide LeadRuleError, LeadRuleRefusal, Gates, FinalRefusal, GateRefusal, Reconciled, BlockedBy, NewDependencies,
      DependencyRefusal, WellFormed, LeadRow;
    if NewDependencies(b, t, p).Success? {
      LeadRulesAre(b, t, p, env);
    }
  }

  lemma LeadGates(b: Board, t: TaskId, after: TaskRow, p: Patch, env: Env)
    requires t in b.tasks && after.autoSwarm == b.tasks[t].autoSwarm
    ensures OrElse(Gates(b, t, b.tasks[t].status, after, StatusRequested(b.tasks[t], p)),
                   When(p.customFields && !env.customFieldsAccepted, CustomFieldsRejected)) ==
      FinalRefusal(GateRefusal(b, t, p, after.status, after.mode, after.arena), false, p, env)
  {
    GateRefusalIs(b, t, p, after);
    hide Gates, GateRefusal;
  }

  /** Every answer to a lead's PATCH. */
  lemma LeadRefusalIs(b: Board, t: TaskId, agent: AgentId, p: Patch, env: Env)
    requires WellFormed(b) && t in b.tasks && env.gsdAllowed
    ensures var r := PatchTask(b, t, Lead(agent), p, env);
      LeadRefusal(b, t, p, env) == if r.Success? then None else Some(r.error)
  {
    hide LeadRefusal, LeadPatch, AdminPatch, WorkerPatch, WellFormed;
    LeadPatchRefusal(b, t, p, env);
  }

  /** Whom an admin may not assign. */
  function AssignRefusal(p: Patch, env: Env): Option<Error> {
    var agent := if p.assignee.Some? then p.assignee.value else None;
    if agent.Some? && agent.value !in env.agents then Some(UnknownAgent)
    else if agent.Some? && env.agents[agent.value].otherBoard then Some(AgentOnOtherBoard)
    else None
  }

  lemma AssignRefusalIs(p: Patch, env: Env)
    ensures AdminAssignError(GetOr(p.assignee, None), env) == AssignRefusal(p, env)
  {
  }

  /** What an admin is refused for. */
  ghost function AdminRefusal(b: Board, t: TaskId, p: Patch, env: Env): Option<Error>
    requires t in b.tasks
  {
    var row := b.tasks[t];
    var back := TurnedBack(b, t, p);
    var target := if back then Inbox else if p.status.Some? then p.status.value else row.status;
    var deps := DependencyRefusal(b, t, p);
    var assign := AssignRefusal(p, env);
    var mode := if p.mode.Some? then p.mode.value else row.mode;
    var arena := if p.arena.Some? then p.arena.value else row.arena;
    if p.tags && !env.tagsKnown then Some(UnknownTags)
    else if deps.Some? then deps
    else if !back && assign.Some? then assign
    else FinalRefusal(
      GateRefusal(b, t, p, target, mode, arena),
      !back && p.status == Some(Review) && !Commented(NewOrOldOwner(row, p), row.inProgressAt, p, env), p, env)
  }

  lemma AdminPatchRefusal(b: Board, t: TaskId, p: Patch, env: Env)
    requires WellFormed(b) && t in b.tasks
    ensures var r := AdminPatch(b, t, p, env);
      AdminRefusal(b, t, p, env) == if r.Success? then None else Some(r.error)
  {
    DependencyRefusalIs(b, t, p);
    AssignRefusalIs(p, env);
    hide AdminAssignError, AssignRefusal, FinalError, FinalRefusal, GateRefusal, Reconciled, BlockedBy,
      NewDependencies, DependencyRefusal, WellFormed, WillWait, AdminRow, Blockers, Commented, ReviewCommented;
    if NewDependencies(b, t, p).Success? {
      BlockersAre(b, t, p);
      var row, blocked := b.tasks[t], Blockers(b, t, p);
      AdminRowIs(row, p, blocked, env);
      FinalRefusalIs(b, t, AdminRow(row, p, blocked, env.now),
        !AdminResets(row, p, blocked) && p.status == Some(Review), p, env);
    }
  }

  /** Every answer to an admin's PATCH. */
  lemma AdminRefusalIs(b: Board, t: TaskId, p: Patch, env: Env)
    requires WellFormed(b) && t in b.tasks && env.gsdAllowed
    ensures var r := PatchTask(b, t, Admin, p, env);
      AdminRefusal(b, t, p, env) == if r.Success? then None else Some(r.error)
  {
    hide AdminRefusal, LeadPatch, AdminPatch, WorkerPatch, WellFormed;
    AdminPatchRefusal(b, t, p, env);
  }

  /** What the refusals that carry a list name. */
  lemma ReasonsName(b: Board, wanted: seq<TaskId>, arena: Option<ArenaConfig>)
    ensures forall d :: d in Missing(b, Dedupe(wanted)) <==> d in wanted && d !in b.tasks
    ensures forall key :: key in MissingChecks(arena) <==>
      !CheckHolds(arena, key) && (key in ["pr_created", "ci_passed", "human_reviewed"]
                                  || (key == "ui_screenshot_present" && CheckHolds(arena, "ui_labeled")))
  {
    DedupeHolds(wanted);
    assert forall key :: Passed(Checks(arena), key) <==> CheckHolds(arena, key);
    hide Dedupe, CheckHolds, Checks;
  }

  // ---- when nothing is in the way ------------------------------------------

  lemma GatesOpenIff(b: Board, t: TaskId, p: Patch, target: Status, mode: TaskMode, arena: Option<ArenaConfig>)
    requires t in b.tasks
    ensures GateRefusal(b, t, p, target, mode, arena) == None <==> GatesOpen(b, t, p, target, mode, arena)
    ensures p.status.None? && target == b.tasks[t].status ==> GatesOpen(b, t, p, target, mode, arena)
  {
    hide ChecksComplete, HasPendingApproval, HasApprovedApproval, MissingChecks;
  }

  lemma WorkerAcceptedIff(b: Board, t: TaskId, agent: AgentId, otherBoard: bool, p: Patch, env: Env)
    ensures PatchTask(b, t, Worker(agent, otherBoard), p, env).Success? <==>
      t in b.tasks && env.gsdAllowed && WorkerMay(b, t, agent, otherBoard, p, env)
  {
    if t in b.tasks && env.gsdAllowed {
      hide GateRefusal, GatesOpen, IsBlocked, Commented, LeadPatch, AdminPatch, WorkerPatch;
      WorkerRefusalIs(b, t, agent, otherBoard, p, env);
      var row := b.tasks[t];
      GatesOpenIff(b, t, p, if p.status.Some? then p.status.value else row.status, row.mode, row.arena);
    }
  }

  lemma LeadAcceptedIff(b: Board, t: TaskId, agent: AgentId, p: Patch, env: Env)
    requires WellFormed(b)
    ensures PatchTask(b, t, Lead(agent), p, env).Success? <==>
      t in b.tasks && env.gsdAllowed && LeadMay(b, t, p, env)
  {
    if t in b.tasks && env.gsdAllowed {
      hide GateRefusal, GatesOpen, WillWait, Acyclic, WellFormed, LeadPatch, AdminPatch, WorkerPatch;
      LeadRefusalIs(b, t, agent, p, env);
      var row := b.tasks[t];
      GatesOpenIff(b, t, p, if p.status.Some? then p.status.value else row.status, row.mode,
        if p.arena.Some? then p.arena.value else row.arena);
    }
  }

  lemma AdminAcceptedIff(b: Board, t: TaskId, p: Patch, env: Env)
    requires WellFormed(b)
    ensures PatchTask(b, t, Admin, p, env).Success? <==>
      t in b.tasks && env.gsdAllowed && AdminMay(b, t, p, env)
  {
    if t in b.tasks && env.gsdAllowed {
      hide GateRefusal, GatesOpen, WillWait, Acyclic, WellFormed, Commented, LeadPatch, AdminPatch, WorkerPatch;
      AdminRefusalIs(b, t, p, env);
      var row := b.tasks[t];
      var target := if TurnedBack(b, t, p) then Inbox else if p.status.Some? then p.status.value else row.status;
      GatesOpenIff(b, t, p, target, if p.mode.Some? then p.mode.value else row.mode,
        if p.arena.Some? then p.arena.value else row.arena);
    }
  }
}
