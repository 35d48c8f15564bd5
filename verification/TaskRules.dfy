/** What one request does to a board, as a function from tables to tables.
    The imperative code in TaskService.dfy is proved to compute it. */
module TaskRules {
  import opened Prelude
  import opened BoardModel
  import opened DependencyGraph

  /** The fields a PATCH sets; `None` means that the field was not sent. */
  datatype Patch = Patch(
    status: Option<Status>,
    assignee: Option<Option<AgentId>>,
    mode: Option<TaskMode>,
    arena: Option<Option<ArenaConfig>>,
    otherFields: bool,  // title, priority, due_at, gsd_stage, ...
    comment: bool,      // a non-blank comment
    dependsOn: Option<seq<TaskId>>,
    tags: bool,
    customFields: bool)

  datatype Actor = Admin | Worker(agent: AgentId, otherBoard: bool) | Lead(agent: AgentId)

  /** What a request reads outside the board's tables. `recentComment(a, s)`
      tells whether the latest comment of agent `a` since `s` is non-blank. */
  datatype Env = Env(
    now: Time,
    gsdAllowed: bool,
    tagsKnown: bool,
    customFieldsAccepted: bool,
    agents: map<AgentId, AgentRow>,
    recentComment: (AgentId, Time) -> bool)

  datatype Error =
    | GsdBlocked
    | UnknownTask
    | DuplicateTask
    | DependenciesFrozen
    | SelfDependency
    | MissingDependencies(ids: seq<TaskId>)
    | DependencyCycle
    | UnknownTags
    | Blocked(ids: seq<TaskId>)
    | UnknownAgent
    | AgentIsLead
    | AgentOnOtherBoard
    | LeadCommentGate
    | LeadFieldGate
    | LeadStatusGate
    | LeadTargetGate
    | BoardMismatch
    | AssigneeMismatch
    | WorkerFieldGate
    | LeadOnlyStatus
    | PendingApprovalBlocks
    | ReviewRequired
    | ApprovalRequired
    | EngineeringChecksMissing(missing: seq<string>)
    | CommentRequired
    | CustomFieldsRejected

  // ---- dependency updates -------------------------------------------------

  function Missing(b: Board, ids: seq<TaskId>): seq<TaskId> {
    Filter(d => d !in b.tasks, ids)
  }

  ghost function ValidDependencies(b: Board, t: TaskId, wanted: seq<TaskId>): Result<seq<TaskId>, Error> {
    var normalized := Dedupe(wanted);
    var missing := Missing(b, normalized);
    if t in normalized then Failure(SelfDependency)
    else if normalized == [] then Success([])
    else if missing != [] then Failure(MissingDependencies(missing))
    else if CycleReachable(b.tasks.Keys, EdgesOf(b.deps[t := normalized])) then Failure(DependencyCycle)
    else Success(normalized)
  }

  /** The dependencies a PATCH leaves the task with. */
  ghost function NewDependencies(b: Board, t: TaskId, p: Patch): Result<seq<TaskId>, Error>
    requires t in b.tasks
  {
    if p.dependsOn.None? then Success(DepsOf(b.deps, t))
    else if b.tasks[t].status == Finished then Failure(DependenciesFrozen)
    else ValidDependencies(b, t, p.dependsOn.value)
  }

  // ---- gates --------------------------------------------------------------

  function Checks(arena: Option<ArenaConfig>): map<string, bool> {
    if arena.None? || arena.value.doneGateChecks.None? then map[]
    else
      var checks := arena.value.doneGateChecks.value;
      if arena.value.uiLabeled then checks["ui_labeled" := true] else checks
  }

  predicate Passed(checks: map<string, bool>, key: string) {
    key in checks && checks[key]
  }

  predicate IsSwarm(row: TaskRow) {
    row.mode == Arena || row.mode == ArenaNotebook || row.autoSwarm
  }

  const REQUIRED_CHECKS: seq<string> := ["pr_created", "ci_passed", "human_reviewed"]

  function MissingChecks(arena: Option<ArenaConfig>): seq<string> {
    var checks := Checks(arena);
    Filter(key => !Passed(checks, key), REQUIRED_CHECKS)
    + if Passed(checks, "ui_labeled") && !Passed(checks, "ui_screenshot_present")
      then ["ui_screenshot_present"] else []
  }

  function OrElse(first: Option<Error>, second: Option<Error>): Option<Error> {
    if first.Some? then first else second
  }

  function When(condition: bool, error: Error): Option<Error> {
    if condition then Some(error) else None
  }

  predicate EntersDone(previous: Status, target: Status) {
    previous != Finished && target == Finished
  }

  function PendingApprovalGate(b: Board, t: TaskId, previous: Status, target: Status,
      statusRequested: bool): Option<Error> {
    When(statusRequested && previous != target
         && b.flags.blockStatusChangesWithPendingApproval && HasPendingApproval(b, t), PendingApprovalBlocks)
  }

  function ReviewGate(b: Board, previous: Status, target: Status): Option<Error> {
    When(EntersDone(previous, target) && b.flags.requireReviewBeforeDone && previous != Review, ReviewRequired)
  }

  function ApprovalGate(b: Board, t: TaskId, previous: Status, target: Status): Option<Error> {
    When(EntersDone(previous, target) && b.flags.requireApprovalForDone && !HasApprovedApproval(b, t), ApprovalRequired)
  }

  function EngineeringGate(previous: Status, row: TaskRow): Option<Error> {
    When(EntersDone(previous, row.status) && IsSwarm(row) && MissingChecks(row.arena) != [],
         EngineeringChecksMissing(MissingChecks(row.arena)))
  }

  /** The gates in the order in which every role path runs them. */
  function Gates(b: Board, t: TaskId, previous: Status, row: TaskRow, statusRequested: bool): Option<Error> {
    OrElse(PendingApprovalGate(b, t, previous, row.status, statusRequested),
    OrElse(ReviewGate(b, previous, row.status),
    OrElse(ApprovalGate(b, t, previous, row.status),
           EngineeringGate(previous, row))))
  }

  predicate StatusRequested(row: TaskRow, p: Patch) {
    p.status.Some? && p.status.value != row.status
  }

  // ---- reconciliation -----------------------------------------------------

  /** Reopening a task parks its direct dependents that are not done. */
  function Reconciled(b: Board, t: TaskId, previous: Status): (r: Board)
    ensures r.tasks.Keys == b.tasks.Keys && r.deps == b.deps
    ensures r.approvals == b.approvals && r.links == b.links && r.flags == b.flags && r.foreign == b.foreign
  {
    if t in b.tasks && previous == Finished && b.tasks[t].status != Finished then
      b.(tasks := map u | u in b.tasks ::
        if u in Dependents(b.deps, t) && b.tasks[u].status != Finished
        then b.tasks[u].Park() else b.tasks[u])
    else b
  }

  function WithTask(b: Board, t: TaskId, row: TaskRow, deps: seq<TaskId>): Board {
    b.(tasks := b.tasks[t := row], deps := b.deps[t := deps])
  }

  // ---- rows after a PATCH -------------------------------------------------

  function GetOr<T>(o: Option<T>, default: T): T {
    if o.Some? then o.value else default
  }

  function FirstSome<T>(a: Option<T>, b: Option<T>): Option<T> {
    if a.Some? then a else b
  }

  function Stopped(row: TaskRow, status: Status): TaskRow {
    row.(status := status, assignee := None, inProgressAt := None, previousInProgressAt := row.inProgressAt)
  }

  function LeadRow(row: TaskRow, p: Patch): TaskRow {
    var edited := row.(assignee := GetOr(p.assignee, row.assignee), arena := GetOr(p.arena, row.arena));
    match p.status
    case None => edited
    case Some(Inbox) => edited.(status := Inbox, assignee := None, inProgressAt := None)
    case Some(s) => edited.(status := s)
  }

  function WorkerRow(row: TaskRow, agent: AgentId, p: Patch, now: Time): TaskRow {
    match p.status
    case None => row
    case Some(Inbox) => Stopped(row, Inbox)
    case Some(Review) => Stopped(row, Review)
    case Some(InProgress) => row.(status := InProgress, assignee := Some(agent), inProgressAt := Some(now))
    case Some(Finished) => row.(status := Finished, assignee := Some(agent))
  }

  predicate AdminResets(row: TaskRow, p: Patch, blocked: seq<TaskId>) {
    blocked != [] && !(row.status == Finished && GetOr(p.status, row.status) == Finished)
  }

  function AdminRow(row: TaskRow, p: Patch, blocked: seq<TaskId>, now: Time): TaskRow {
    var edited := row.(mode := GetOr(p.mode, row.mode), arena := GetOr(p.arena, row.arena));
    if AdminResets(row, p, blocked) then edited.Park().(previousInProgressAt := None)
    else
      var moved := match p.status
        case None => edited
        case Some(Inbox) => Stopped(edited, Inbox)
        case Some(Review) => Stopped(edited, Review)
        case Some(InProgress) => edited.(status := InProgress, inProgressAt := Some(now))
        case Some(Finished) => edited.(status := Finished);
      moved.(assignee := GetOr(p.assignee, moved.assignee))
  }

  // ---- the three role paths -----------------------------------------------

  function LeadAssignError(assignee: Option<AgentId>, env: Env): Option<Error> {
    if assignee.None? then None
    else if assignee.value !in env.agents then Some(UnknownAgent)
    else if env.agents[assignee.value].isLead then Some(AgentIsLead)
    else if env.agents[assignee.value].otherBoard then Some(AgentOnOtherBoard)
    else None
  }

  function LeadStatusError(row: TaskRow, p: Patch): Option<Error> {
    if p.status.None? then None
    else if row.status != Review then Some(LeadStatusGate)
    else if p.status.value != Finished && p.status.value != Inbox then Some(LeadTargetGate)
    else None
  }

  /** The refusals of a lead's PATCH that come before the gates. */
  function LeadRuleError(row: TaskRow, blocked: seq<TaskId>, p: Patch, env: Env): Option<Error> {
    OrElse(When(p.tags && !env.tagsKnown, UnknownTags),
    OrElse(When(blocked != [] && (p.assignee.Some? || p.status.Some?), Blocked(blocked)),
    OrElse(LeadAssignError(GetOr(p.assignee, None), env),
           LeadStatusError(row, p))))
  }

  ghost function LeadPatch(b: Board, t: TaskId, p: Patch, env: Env): Result<Board, Error>
    requires t in b.tasks
  {
    var row := b.tasks[t];
    if p.comment then Failure(LeadCommentGate)
    else if p.mode.Some? || p.otherFields then Failure(LeadFieldGate)
    else
      var deps :- NewDependencies(b, t, p);
      var blocked := BlockedBy(b.tasks, deps);
      var after := LeadRow(row, p);
      var error :=
        OrElse(LeadRuleError(row, blocked, p, env),
        OrElse(Gates(b, t, row.status, after, StatusRequested(row, p)),
               When(p.customFields && !env.customFieldsAccepted, CustomFieldsRejected)));
      if error.Some? then Failure(error.value)
      else Success(Reconciled(WithTask(b, t, after, deps), t, row.status))
  }

  /** What entering review asks for: a comment now, or a recent one by the worker. */
  predicate ReviewCommented(before: TaskRow, after: TaskRow, p: Patch, env: Env) {
    var author := FirstSome(after.assignee, before.assignee);
    var since := FirstSome(after.previousInProgressAt, before.inProgressAt);
    p.comment || (author.Some? && since.Some? && env.recentComment(author.value, since.value))
  }

  /** The checks of `_finalize_updated_task`, shared by admin and worker. */
  function FinalError(b: Board, t: TaskId, before: TaskRow, after: TaskRow, toReview: bool, p: Patch,
      env: Env): Option<Error> {
    OrElse(Gates(b, t, before.status, after, StatusRequested(before, p)),
    OrElse(When(toReview && !ReviewCommented(before, after, p, env), CommentRequired),
           When(p.customFields && !env.customFieldsAccepted, CustomFieldsRejected)))
  }

  /** The refusals of `_apply_non_lead_agent_task_rules`. */
  function WorkerRuleError(b: Board, row: TaskRow, blocked: seq<TaskId>, agent: AgentId, otherBoard: bool,
      p: Patch): Option<Error> {
    OrElse(When(otherBoard, BoardMismatch),
    OrElse(When(p.status.Some? && row.assignee.Some? && row.assignee.value != agent, AssigneeMismatch),
    OrElse(When(p.dependsOn.Some? || p.tags || p.assignee.Some? || p.mode.Some? || p.arena.Some? || p.otherFields,
      WorkerFieldGate),
    OrElse(When(p.status.Some? && b.flags.onlyLeadCanChangeStatus, LeadOnlyStatus),
           When(p.status.Some? && p.status.value != Inbox && blocked != [], Blocked(blocked))))))
  }

  ghost function WorkerPatch(b: Board, t: TaskId, agent: AgentId, otherBoard: bool, p: Patch,
      env: Env): Result<Board, Error>
    requires t in b.tasks
  {
    var row := b.tasks[t];
    var deps := DepsOf(b.deps, t);
    var blocked := BlockedBy(b.tasks, deps);
    var after := WorkerRow(row, agent, p, env.now);
    var error := OrElse(WorkerRuleError(b, row, blocked, agent, otherBoard, p),
                        FinalError(b, t, row, after, p.status == Some(Review), p, env));
    if error.Some? then Failure(error.value)
    else Success(Reconciled(WithTask(b, t, after, deps), t, row.status))
  }

  function AdminAssignError(assignee: Option<AgentId>, env: Env): Option<Error> {
    if assignee.None? then None
    else if assignee.value !in env.agents then Some(UnknownAgent)
    else if env.agents[assignee.value].otherBoard then Some(AgentOnOtherBoard)
    else None
  }

  ghost function AdminPatch(b: Board, t: TaskId, p: Patch, env: Env): Result<Board, Error>
    requires t in b.tasks
  {
    var row := b.tasks[t];
    if p.tags && !env.tagsKnown then Failure(UnknownTags)
    else
      var deps :- NewDependencies(b, t, p);
      var blocked := BlockedBy(b.tasks, deps);
      var resets := AdminResets(row, p, blocked);
      var after := AdminRow(row, p, blocked, env.now);
      var error :=
        OrElse(if resets then None else AdminAssignError(GetOr(p.assignee, None), env),
               FinalError(b, t, row, after, !resets && p.status == Some(Review), p, env));
      if error.Some? then Failure(error.value)
      else Success(Reconciled(WithTask(b, t, after, deps), t, row.status))
  }

  ghost function PatchTask(b: Board, t: TaskId, actor: Actor, p: Patch, env: Env): Result<Board, Error> {
    if t !in b.tasks then Failure(UnknownTask)
    else if !env.gsdAllowed then Failure(GsdBlocked)
    else match actor
      case Lead(_) => LeadPatch(b, t, p, env)
      case Worker(agent, otherBoard) => WorkerPatch(b, t, agent, otherBoard, p, env)
      case Admin => AdminPatch(b, t, p, env)
  }

  // ---- creation and deletion ----------------------------------------------

  datatype NewTask = NewTask(
    status: Status, assignee: Option<AgentId>, mode: TaskMode, autoSwarm: bool,
    arena: Option<ArenaConfig>, dependsOn: seq<TaskId>)
  {
    function Row(): TaskRow {
      TaskRow(status, assignee, None, None, mode, autoSwarm, arena)
    }
  }

  function CreateError(blocked: seq<TaskId>, byLead: bool, n: NewTask, env: Env): Option<Error> {
    OrElse(When(!env.tagsKnown, UnknownTags),
    OrElse(When(blocked != [] && (n.assignee.Some? || n.status != Inbox), Blocked(blocked)),
    OrElse(if byLead then LeadAssignError(n.assignee, env) else None,
           When(!env.customFieldsAccepted, CustomFieldsRejected))))
  }

  ghost function CreateTask(b: Board, t: TaskId, byLead: bool, n: NewTask, env: Env): Result<Board, Error> {
    if TaskExists(b, t) then Failure(DuplicateTask)
    else
      var deps :- ValidDependencies(b, t, n.dependsOn);
      var error := CreateError(BlockedBy(b.tasks, deps), byLead, n, env);
      if error.Some? then Failure(error.value) else Success(WithTask(b, t, n.Row(), deps))
  }

  function LinkedTasks(links: seq<Link>, a: ApprovalId): seq<TaskId> {
    if links == [] then []
    else
      var front := LinkedTasks(links[..|links| - 1], a);
      var last := links[|links| - 1];
      if last.approval == a then front + [last.task] else front
  }

  function WithoutTask(deps: Dependencies, t: TaskId): Dependencies {
    map u | u in deps && u != t :: Filter(d => d != t, deps[u])
  }

  /** An approval whose primary task goes away moves to its first other link,
      or goes away too when there is none. */
  function SurvivingApprovals(approvals: map<ApprovalId, ApprovalRow>, links: seq<Link>,
      t: TaskId): map<ApprovalId, ApprovalRow> {
    map a | a in approvals && (approvals[a].primary == Some(t) ==> LinkedTasks(links, a) != []) ::
      if approvals[a].primary == Some(t) then approvals[a].(primary := Some(LinkedTasks(links, a)[0]))
      else approvals[a]
  }

  function DeleteTask(b: Board, t: TaskId): Board {
    var links := Filter((l: Link) => l.task != t, b.links);
    b.(tasks := b.tasks - {t},
       foreign := b.foreign - {t},
       deps := WithoutTask(b.deps, t),
       links := links,
       approvals := SurvivingApprovals(b.approvals, links, t))
  }
}
