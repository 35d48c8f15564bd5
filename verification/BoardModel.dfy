/** Rows and tables of one board (backend/app/models, backend/app/schemas/tasks.py). */
module BoardModel {
  import opened Prelude

  type TaskId = nat
  type AgentId = nat
  type ApprovalId = nat
  type Time = int

  datatype Status = Inbox | InProgress | Review | Finished

  datatype TaskMode = Standard | Notebook | Arena | ArenaNotebook | NotebookCreation

  /** The part of `arena_config` that the done gate reads; a missing
      `done_gate_checks` dictionary is `None`. */
  datatype ArenaConfig = ArenaConfig(doneGateChecks: Option<map<string, bool>>, uiLabeled: bool)

  datatype TaskRow = TaskRow(
    status: Status,
    assignee: Option<AgentId>,
    inProgressAt: Option<Time>,
    previousInProgressAt: Option<Time>,
    mode: TaskMode,
    autoSwarm: bool,  // auto_reason starts with "swarm:engineering"
    arena: Option<ArenaConfig>)
  {
    /** In the inbox, owned by nobody, with no start time. */
    predicate Parked() {
      status == Inbox && assignee == None && inProgressAt == None
    }

    function Park(): TaskRow {
      this.(status := Inbox, assignee := None, inProgressAt := None)
    }

    predicate SameActivity(other: TaskRow) {
      status == other.status && assignee == other.assignee && inProgressAt == other.inProgressAt
    }
  }

  datatype ApprovalStatus = Pending | Approved | Rejected

  datatype ApprovalRow = ApprovalRow(status: ApprovalStatus, primary: Option<TaskId>)

  datatype Link = Link(approval: ApprovalId, task: TaskId)

  datatype BoardFlags = BoardFlags(
    requireApprovalForDone: bool,
    requireReviewBeforeDone: bool,
    blockStatusChangesWithPendingApproval: bool,
    onlyLeadCanChangeStatus: bool)

  /** An agent row: `otherBoard` says that it is bound to a different board. */
  datatype AgentRow = AgentRow(isLead: bool, otherBoard: bool)

  type Tasks = map<TaskId, TaskRow>
  type Dependencies = map<TaskId, seq<TaskId>>

  datatype Board = Board(
    tasks: Tasks,
    deps: Dependencies,  // rows of task_dependencies, per dependent, oldest first
    approvals: map<ApprovalId, ApprovalRow>,
    links: seq<Link>,    // rows of approval_task_links, oldest first
    flags: BoardFlags,
    foreign: set<TaskId>)  // the tasks of all other boards, which approvals may name too

  /** Every task has its list of dependency rows, possibly empty. */
  predicate Keyed(b: Board) {
    b.deps.Keys == b.tasks.Keys
  }

  /** What a foreign key to the tasks table asks for. */
  predicate TaskExists(b: Board, t: TaskId) {
    t in b.tasks || t in b.foreign
  }

  function DepsOf(deps: Dependencies, t: TaskId): seq<TaskId> {
    if t in deps then deps[t] else []
  }

  /** A dependency counts as done only when its row exists and is done. */
  predicate Undone(tasks: Tasks, d: TaskId) {
    d !in tasks || tasks[d].status != Finished
  }

  function BlockedBy(tasks: Tasks, deps: seq<TaskId>): seq<TaskId> {
    Filter(d => Undone(tasks, d), deps)
  }

  predicate IsBlocked(b: Board, t: TaskId) {
    exists d :: d in DepsOf(b.deps, t) && Undone(b.tasks, d)
  }

  function Dependents(deps: Dependencies, t: TaskId): set<TaskId> {
    set u | u in deps && t in deps[u]
  }

  predicate HasLink(links: seq<Link>, a: ApprovalId) {
    exists l :: l in links && l.approval == a
  }

  /** An approval concerns the tasks it is linked to; a row without links
      concerns its primary task. */
  predicate Concerns(links: seq<Link>, a: ApprovalId, row: ApprovalRow, t: TaskId) {
    Link(a, t) in links || (row.primary == Some(t) && !HasLink(links, a))
  }

  predicate HasApprovedApproval(b: Board, t: TaskId) {
    exists a :: a in b.approvals && b.approvals[a].status == Approved
                && (b.approvals[a].primary == Some(t) || Link(a, t) in b.links)
  }

  predicate HasPendingApproval(b: Board, t: TaskId) {
    exists a :: a in b.approvals && b.approvals[a].status == Pending
                && Concerns(b.links, a, b.approvals[a], t)
  }
}
