/** The request handlers of backend/app/api/tasks.py as code that updates rows
    in place, proved to compute the functions of TaskRules. */
module TaskService {
  import opened Prelude
  import opened BoardModel
  import opened DependencyGraph
  import opened TaskRules

  /** The ORM object of one task row. */
  class TaskRecord {
    var status: Status
    var assignee: Option<AgentId>
    var inProgressAt: Option<Time>
    var previousInProgressAt: Option<Time>
    var mode: TaskMode
    var autoSwarm: bool
    var arena: Option<ArenaConfig>

    function Row(): TaskRow
      reads this
    {
      TaskRow(status, assignee, inProgressAt, previousInProgressAt, mode, autoSwarm, arena)
    }

    constructor (row: TaskRow)
      ensures Row() == row
    {
      status, assignee := row.status, row.assignee;
      inProgressAt, previousInProgressAt := row.inProgressAt, row.previousInProgressAt;
      mode, autoSwarm, arena := row.mode, row.autoSwarm, row.arena;
    }
  }

  /** The dictionary of attribute values that a PATCH assigns at its end. */
  datatype Updates = Updates(
    status: Option<Status>,
    assignee: Option<Option<AgentId>>,
    mode: Option<TaskMode>,
    arena: Option<Option<ArenaConfig>>)
  {
    function AppliedTo(row: TaskRow): TaskRow {
      row.(status := GetOr(status, row.status), assignee := GetOr(assignee, row.assignee),
           mode := GetOr(mode, row.mode), arena := GetOr(arena, row.arena))
    }
  }

  function UpdatesOf(p: Patch): Updates {
    Updates(p.status, p.assignee, p.mode, p.arena)
  }

  /** `_TaskUpdateInput`. */
  class TaskUpdate {
    const id: TaskId
    const task: TaskRecord
    const patch: Patch
    const previous: TaskRow
    var updates: Updates

    ghost predicate Loaded(b: Board)
      reads this, task
    {
      id in b.tasks && task.Row() == previous == b.tasks[id] && updates == UpdatesOf(patch)
    }

    constructor (id: TaskId, task: TaskRecord, patch: Patch)
      ensures this.id == id && this.task == task && this.patch == patch
      ensures previous == task.Row() && updates == UpdatesOf(patch)
    {
      this.id, this.task, this.patch := id, task, patch;
      previous, updates := task.Row(), UpdatesOf(patch);
    }
  }

  method Normalize(wanted: seq<TaskId>) returns (output: seq<TaskId>)
    ensures output == Dedupe(wanted)
  {
    var seen: set<TaskId> := {};
    output := [];
    for i := 0 to |wanted|
      invariant output == Dedupe(wanted[..i]) && seen == Elements(output)
    {
      assert wanted[..i + 1][..i] == wanted[..i];
      if wanted[i] !in seen {
        seen := seen + {wanted[i]};
        ElementsSnoc(output, wanted[i]);
        output := output + [wanted[i]];
      }
    }
    assert wanted[..|wanted|] == wanted;
  }

  class BoardService {
    var board: Board          // committed tables
    var staged: Dependencies  // dependency rows as the open transaction sees them

    ghost predicate Idle()
      reads this
    {
      Keyed(board) && staged == board.deps
    }

    constructor (b: Board)
      requires Keyed(b)
      ensures Idle() && board == b
    {
      board, staged := b, b.deps;
    }

    method ValidateDependencyUpdate(t: TaskId, wanted: seq<TaskId>) returns (r: Result<seq<TaskId>, Error>)
      requires Keyed(board) && staged == board.deps
      ensures r == ValidDependencies(board, t, wanted)
    {
      var normalized := Normalize(wanted);
      if t in normalized {
        return Failure(SelfDependency);
      }
      if normalized == [] {
        return Success([]);
      }
      var missing := Missing(board, normalized);
      if missing != [] {
        return Failure(MissingDependencies(missing));
      }
      var edges := EdgesOf(staged);
      edges := edges[t := Elements(normalized)];
      assert edges == EdgesOf(staged[t := normalized]);
      var detector := new CycleDetector(edges);
      var cyclic := detector.HasCycle(board.tasks.Keys);
      if cyclic {
        return Failure(DependencyCycle);
      }
      return Success(normalized);
    }

    method EffectiveDependencies(u: TaskUpdate) returns (r: Result<seq<TaskId>, Error>)
      requires Idle() && u.Loaded(board)
      modifies this`staged
      ensures r == NewDependencies(board, u.id, u.patch)
      ensures r.Success? ==> staged == board.deps[u.id := r.value]
    {
      if u.patch.dependsOn.None? {
        return Success(DepsOf(staged, u.id));
      }
      if u.task.status == Finished {
        return Failure(DependenciesFrozen);
      }
      r := ValidateDependencyUpdate(u.id, u.patch.dependsOn.value);
      if r.Success? {
        staged := staged[u.id := r.value];
      }
    }

    method ReconcileDependents(t: TaskId, previous: Status)
      requires t in board.tasks
      modifies this`board
      ensures board == Reconciled(old(board), t, previous)
    {
      if (previous == Finished) == (board.tasks[t].status == Finished) {
        return;
      }
      var reopened := previous == Finished && board.tasks[t].status != Finished;
      var start := board.tasks;
      var todo := Dependents(board.deps, t) * start.Keys;
      while todo != {}
        invariant todo <= Dependents(board.deps, t) * start.Keys
        invariant board == old(board).(tasks := map u | u in start ::
                    if reopened && u in Dependents(board.deps, t) - todo && start[u].status != Finished
                    then start[u].Park() else start[u])
      {
        var u :| u in todo;
        todo := todo - {u};
        var dependent := board.tasks[u];
        if dependent.status != Finished && reopened
           && (dependent.status != Inbox || dependent.assignee != None || dependent.inProgressAt != None)
        {
          dependent := dependent.(status := Inbox, assignee := None, inProgressAt := None);
          board := board.(tasks := board.tasks[u := dependent]);
        }
      }
    }

    method Commit(u: TaskUpdate)
      requires u.id in staged
      modifies this`board
      ensures board == WithTask(old(board), u.id, u.task.Row(), staged[u.id]).(deps := staged)
    {
      board := board.(tasks := board.tasks[u.id := u.task.Row()], deps := staged);
    }

    method LeadApplyAssignment(u: TaskUpdate, env: Env) returns (error: Option<Error>)
      modifies u.task`assignee
      ensures error == LeadAssignError(GetOr(u.patch.assignee, None), env)
      ensures error == None ==> u.task.assignee == GetOr(u.patch.assignee, old(u.task.assignee))
    {
      if u.patch.assignee.None? {
        return None;
      }
      if u.patch.assignee.value.None? {
        u.task.assignee := None;
        return None;
      }
      var agent := u.patch.assignee.value.value;
      if agent !in env.agents {
        return Some(UnknownAgent);
      }
      if env.agents[agent].isLead {
        return Some(AgentIsLead);
      }
      if env.agents[agent].otherBoard {
        return Some(AgentOnOtherBoard);
      }
      u.task.assignee := Some(agent);
      return None;
    }

    method LeadApplyStatus(u: TaskUpdate) returns (error: Option<Error>)
      modifies u.task
      ensures error == LeadStatusError(old(u.task.Row()), u.patch)
      ensures error == None ==>
        u.task.Row() == LeadRow(old(u.task.Row()), u.patch.(assignee := None, arena := None))
    {
      if u.patch.status.None? {
        return None;
      }
      if u.task.status != Review {
        return Some(LeadStatusGate);
      }
      var target := u.patch.status.value;
      if target != Finished && target != Inbox {
        return Some(LeadTargetGate);
      }
      if target == Inbox {
        u.task.assignee := None;
        u.task.inProgressAt := None;
      }
      u.task.status := target;
      return None;
    }

    /** The edits of a lead's PATCH to the loaded row, up to the gates. */
    method LeadEdit(u: TaskUpdate, blocked: seq<TaskId>, env: Env) returns (error: Option<Error>)
      requires u.Loaded(board)
      modifies u.task
      ensures error == LeadRuleError(u.previous, blocked, u.patch, env)
      ensures error == None ==> u.task.Row() == LeadRow(u.previous, u.patch)
    {
      hide LeadAssignError;
      if u.patch.tags && !env.tagsKnown {
        return Some(UnknownTags);
      }
      if blocked != [] && (u.patch.assignee.Some? || u.patch.status.Some?) {
        return Some(Blocked(blocked));
      }
      error := LeadApplyAssignment(u, env);
      if error.Some? {
        return;
      }
      if u.patch.arena.Some? {
        u.task.arena := u.patch.arena.value;
      }
      error := LeadApplyStatus(u);
    }

    method ApplyLeadTaskUpdate(u: TaskUpdate, env: Env) returns (error: Option<Error>)
      requires Idle() && u.Loaded(board)
      modifies this, u.task
      ensures Keyed(board)
      ensures var wanted := LeadPatch(old(board), u.id, u.patch, env);
        && (wanted.Success? ==> error == None && staged == board.deps && board == wanted.value)
        && (wanted.Failure? ==> error == Some(wanted.error) && board == old(board))
    {
      hide LeadRuleError, Gates, Reconciled, LeadRow, NewDependencies;
      if u.patch.comment {
        return Some(LeadCommentGate);
      }
      if u.patch.mode.Some? || u.patch.otherFields {
        return Some(LeadFieldGate);
      }
      var deps := EffectiveDependencies(u);
      if deps.Failure? {
        return Some(deps.error);
      }
      var blocked := BlockedBy(board.tasks, deps.value);
      error := LeadEdit(u, blocked, env);
      if error.Some? {
        return;
      }
      error := Gates(board, u.id, u.previous.status, u.task.Row(), StatusRequested(u.previous, u.patch));
      if error.Some? {
        return;
      }
      if u.patch.customFields && !env.customFieldsAccepted {
        return Some(CustomFieldsRejected);
      }
      Commit(u);
      ReconcileDependents(u.id, u.previous.status);
    }

    method ApplyNonLeadAgentTaskRules(u: TaskUpdate, agent: AgentId, otherBoard: bool, now: Time)
      returns (error: Option<Error>)
      requires Idle() && u.Loaded(board)
      modifies u.task
      ensures error == WorkerRuleError(board, u.previous, BlockedBy(board.tasks, DepsOf(board.deps, u.id)), agent,
        otherBoard, u.patch)
      ensures error == None ==> u.updates.AppliedTo(u.task.Row()) == WorkerRow(u.previous, agent, u.patch, now)
    {
      var p := u.patch;
      if otherBoard {
        return Some(BoardMismatch);
      }
      if u.task.assignee.Some? && u.task.assignee.value != agent && u.updates.status.Some? {
        return Some(AssigneeMismatch);
      }
      if p.dependsOn.Some? || p.tags || p.assignee.Some? || p.mode.Some? || p.arena.Some? || p.otherFields {
        return Some(WorkerFieldGate);
      }
      if u.updates.status.Some? {
        if board.flags.onlyLeadCanChangeStatus {
          return Some(LeadOnlyStatus);
        }
        var status := u.updates.status.value;
        if status != Inbox {
          var blocked := BlockedBy(board.tasks, DepsOf(staged, u.id));
          if blocked != [] {
            return Some(Blocked(blocked));
          }
        }
        if status == Inbox {
          u.task.assignee := None;
          u.task.previousInProgressAt := u.task.inProgressAt;
          u.task.inProgressAt := None;
        } else if status == Review {
          u.task.previousInProgressAt := u.task.inProgressAt;
          u.task.assignee := None;
          u.task.inProgressAt := None;
        } else {
          u.task.assignee := Some(agent);
          if status == InProgress {
            u.task.inProgressAt := Some(now);
          }
        }
      }
      return None;
    }

    /** The rules of `_apply_admin_task_rules`: on success the record
        and the updates together spell the row that `AdminRow` describes. */
    method ApplyAdminTaskRules(u: TaskUpdate, env: Env) returns (error: Option<Error>)
      requires Idle() && u.Loaded(board)
      modifies this`staged, u, u.task
      ensures u.patch.tags && !env.tagsKnown ==> error == Some(UnknownTags)
      ensures !(u.patch.tags && !env.tagsKnown) ==>
        var deps := NewDependencies(board, u.id, u.patch);
        && (deps.Failure? ==> error == Some(deps.error))
        && (deps.Success? ==>
              var blocked := BlockedBy(board.tasks, deps.value);
              var resets := AdminResets(u.previous, u.patch, blocked);
              && staged == board.deps[u.id := deps.value]
              && error == (if resets then None else AdminAssignError(GetOr(u.patch.assignee, None), env))
              && u.updates.AppliedTo(u.task.Row()) == AdminRow(u.previous, u.patch, blocked, env.now)
              && (u.updates.status == Some(Review) <==> !resets && u.patch.status == Some(Review)))
    {
      hide NewDependencies, BlockedBy;
      if u.patch.tags && !env.tagsKnown {
        return Some(UnknownTags);
      }
      var deps := EffectiveDependencies(u);
      if deps.Failure? {
        return Some(deps.error);
      }
      var blocked := BlockedBy(board.tasks, deps.value);
      var target := GetOr(u.updates.status, u.task.status);
      if blocked != [] && !(u.task.status == Finished && target == Finished) {
        u.task.status := Inbox;
        u.task.assignee := None;
        u.task.inProgressAt := None;
        u.updates := u.updates.(status := Some(Inbox), assignee := Some(None));
      }
      if u.updates.status.Some? {
        var status := u.updates.status.value;
        if status == Inbox {
          u.task.previousInProgressAt := u.task.inProgressAt;
          u.task.assignee := None;
          u.task.inProgressAt := None;
        } else if status == Review {
          u.task.previousInProgressAt := u.task.inProgressAt;
          u.task.assignee := None;
          u.task.inProgressAt := None;
        } else if status == InProgress {
          u.task.inProgressAt := Some(env.now);
        }
      }
      if u.updates.assignee.Some? && u.updates.assignee.value.Some? {
        var agent := u.updates.assignee.value.value;
        if agent !in env.agents {
          return Some(UnknownAgent);
        }
        if env.agents[agent].otherBoard {
          return Some(AgentOnOtherBoard);
        }
      }
      return None;
    }

    method FinalizeUpdatedTask(u: TaskUpdate, env: Env) returns (error: Option<Error>)
      requires u.id in board.tasks && u.id in staged && u.previous == board.tasks[u.id]
      modifies this`board, u.task
      ensures var after := old(u.updates.AppliedTo(u.task.Row()));
        && error == FinalError(old(board), u.id, u.previous, after, u.updates.status == Some(Review), u.patch, env)
        && board == (if error.Some? then old(board)
                     else Reconciled(WithTask(old(board), u.id, after, staged[u.id]).(deps := staged), u.id,
                       u.previous.status))
    {
      hide Gates, Reconciled;
      u.task.status := GetOr(u.updates.status, u.task.status);
      u.task.assignee := GetOr(u.updates.assignee, u.task.assignee);
      u.task.mode := GetOr(u.updates.mode, u.task.mode);
      u.task.arena := GetOr(u.updates.arena, u.task.arena);
      error := Gates(board, u.id, u.previous.status, u.task.Row(), StatusRequested(u.previous, u.patch));
      if error.Some? {
        return;
      }
      if u.updates.status == Some(Review) {
        var author := FirstSome(u.task.assignee, u.previous.assignee);
        var since := FirstSome(u.task.previousInProgressAt, u.previous.inProgressAt);
        if !u.patch.comment && !(author.Some? && since.Some? && env.recentComment(author.value, since.value)) {
          return Some(CommentRequired);
        }
      }
      if u.patch.customFields && !env.customFieldsAccepted {
        return Some(CustomFieldsRejected);
      }
      Commit(u);
      ReconcileDependents(u.id, u.previous.status);
    }

    method ApplyWorkerUpdate(u: TaskUpdate, agent: AgentId, otherBoard: bool, env: Env) returns (error: Option<Error>)
      requires Idle() && u.Loaded(board)
      modifies this`board, u.task
      ensures Keyed(board)
      ensures var wanted := WorkerPatch(old(board), u.id, agent, otherBoard, u.patch, env);
        && (wanted.Success? ==> error == None && board == wanted.value)
        && (wanted.Failure? ==> error == Some(wanted.error) && board == old(board))
    {
      hide WorkerRuleError, FinalError, Reconciled;
      error := ApplyNonLeadAgentTaskRules(u, agent, otherBoard, env.now);
      if error.None? {
        error := FinalizeUpdatedTask(u, env);
        assert staged == board.deps[u.id := staged[u.id]];
      }
    }

    method ApplyAdminUpdate(u: TaskUpdate, env: Env) returns (error: Option<Error>)
      requires Idle() && u.Loaded(board)
      modifies this, u, u.task
      ensures Keyed(board)
      ensures var wanted := AdminPatch(old(board), u.id, u.patch, env);
        && (wanted.Success? ==> error == None && board == wanted.value)
        && (wanted.Failure? ==> error == Some(wanted.error) && board == old(board))
    {
      hide FinalError, Reconciled, AdminRow;
      error := ApplyAdminTaskRules(u, env);
      if error.None? {
        error := FinalizeUpdatedTask(u, env);
      }
    }

    /** A PATCH of any role: the new board on success, the untouched one otherwise. */
    method UpdateTask(t: TaskId, actor: Actor, p: Patch, env: Env) returns (error: Option<Error>)
      requires Idle()
      modifies this
      ensures var wanted := PatchTask(old(board), t, actor, p, env);
        && Idle()
        && (wanted.Success? ==> error == None && board == wanted.value)
        && (wanted.Failure? ==> error == Some(wanted.error) && board == old(board))
    {
      hide LeadPatch, WorkerPatch, AdminPatch;
      if t !in board.tasks {
        return Some(UnknownTask);
      }
      if !env.gsdAllowed {
        return Some(GsdBlocked);
      }
      var record := new TaskRecord(board.tasks[t]);
      var u := new TaskUpdate(t, record, p);
      match actor {
        case Lead(_) => error := ApplyLeadTaskUpdate(u, env);
        case Worker(agent, otherBoard) => error := ApplyWorkerUpdate(u, agent, otherBoard, env);
        case Admin => error := ApplyAdminUpdate(u, env);
      }
      staged := board.deps;  // a refused request rolls its transaction back
    }

    method CheckCreation(blocked: seq<TaskId>, byLead: bool, n: NewTask, env: Env) returns (error: Option<Error>)
      ensures error == CreateError(blocked, byLead, n, env)
      ensures error.None? ==> blocked == [] || (n.assignee.None? && n.status == Inbox)
    {
      if !env.tagsKnown {
        return Some(UnknownTags);
      }
      if blocked != [] && (n.assignee.Some? || n.status != Inbox) {
        return Some(Blocked(blocked));
      }
      if byLead && n.assignee.Some? {
        if n.assignee.value !in env.agents {
          return Some(UnknownAgent);
        }
        if env.agents[n.assignee.value].isLead {
          return Some(AgentIsLead);
        }
        if env.agents[n.assignee.value].otherBoard {
          return Some(AgentOnOtherBoard);
        }
      }
      if !env.customFieldsAccepted {
        return Some(CustomFieldsRejected);
      }
      return None;
    }

    /** Creation by an admin (tasks.py) or by the board lead (agent.py). */
    method CreateTaskRow(t: TaskId, byLead: bool, n: NewTask, env: Env) returns (error: Option<Error>)
      requires Idle()
      modifies this
      ensures var wanted := CreateTask(old(board), t, byLead, n, env);
        && Idle()
        && (wanted.Success? ==> error == None && board == wanted.value)
        && (wanted.Failure? ==> error == Some(wanted.error) && board == old(board))
    {
      hide ValidDependencies, CreateError;
      if TaskExists(board, t) {
        return Some(DuplicateTask);
      }
      var deps := ValidateDependencyUpdate(t, n.dependsOn);
      if deps.Failure? {
        return Some(deps.error);
      }
      error := CheckCreation(BlockedBy(board.tasks, deps.value), byLead, n, env);
      if error.Some? {
        return;
      }
      var rows: seq<TaskId> := [];
      for i := 0 to |deps.value|
        invariant rows == deps.value[..i]
      {
        rows := rows + [deps.value[i]];
      }
      assert rows == deps.value;
      staged := staged[t := rows];
      board := board.(tasks := board.tasks[t := n.Row()], deps := staged);
    }

    /** Deletion of a task and of the rows that refer to it. */
    method DeleteTaskRows(t: TaskId)
      requires Idle() && t in board.tasks
      modifies this
      ensures Idle() && board == DeleteTask(old(board), t)
    {
      var approvals := board.approvals;
      var primary := set a | a in approvals && approvals[a].primary == Some(t);
      var links := Filter((l: Link) => l.task != t, board.links);
      var todo := primary;
      var before := board.approvals;
      var after := SurvivingApprovals(before, links, t);
      while todo != {}
        invariant todo <= primary
        invariant forall a :: a in approvals <==> a in before && (a in todo || a in after)
        invariant forall a :: a in approvals ==> approvals[a] == (if a in todo then before[a] else after[a])
      {
        var a :| a in todo;
        todo := todo - {a};
        var remaining := LinkedTasks(links, a);
        if remaining != [] {
          approvals := approvals[a := approvals[a].(primary := Some(remaining[0]))];
        } else {
          approvals := approvals - {a};
        }
      }
      staged := WithoutTask(staged, t);
      board := board.(tasks := board.tasks - {t}, foreign := board.foreign - {t}, deps := staged, links := links,
        approvals := approvals);
    }
  }
}
