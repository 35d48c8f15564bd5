/** What every step, and so every run, of a board keeps. */
module TaskSafety {
  import opened Prelude
  import opened BoardModel
  import opened DependencyGraph
  import opened TaskRules

  // ---- the invariant of the dependency tables -----------------------------

  ghost predicate WellFormed(b: Board) {
    && Keyed(b)
    && (forall u, d :: u in b.deps && d in b.deps[u] ==> d in b.tasks)
    && Acyclic(EdgesOf(b.deps))
  }

  lemma NoSelfDependency(b: Board, t: TaskId)
    requires WellFormed(b)
    ensures t !in DepsOf(b.deps, t)
  {
    var p := [t, t];
    assert !IsLoopedPath(EdgesOf(b.deps), p);
    assert p[0] == p[1];
  }

  lemma ReplacedDependenciesWellFormed(b: Board, t: TaskId, wanted: seq<TaskId>, row: TaskRow)
    requires WellFormed(b)
    requires ValidDependencies(b, t, wanted).Success?
    ensures var deps := ValidDependencies(b, t, wanted).value;
            WellFormed(WithTask(b, t, row, deps)) && t !in deps
  {
    var deps := ValidDependencies(b, t, wanted).value;
    var after := WithTask(b, t, row, deps);
    assert t !in deps;
    forall u, d | u in after.deps && d in after.deps[u] ensures d in after.tasks {
      if u == t {
        assert d !in Filter(d => d !in b.tasks, deps);
      }
    }
    var edges := EdgesOf(after.deps);
    if deps == [] {
      FewerEdgesStayAcyclic(EdgesOf(b.deps), edges);
    } else if t in b.tasks {
      ReachableIffCyclic(b.tasks.Keys, edges);
    } else {
      forall u ensures t !in Successors(edges, u) {
        if u in edges && u != t {
          assert forall d :: d in b.deps[u] ==> d in b.tasks;
        }
      }
      ReachableIffCyclicWithNewTask(b.tasks.Keys, edges, t);
    }
  }

  lemma SameDependenciesWellFormed(b: Board, t: TaskId, row: TaskRow)
    requires WellFormed(b) && t in b.tasks
    ensures WellFormed(WithTask(b, t, row, DepsOf(b.deps, t)))
  {
    var after := WithTask(b, t, row, DepsOf(b.deps, t));
    FewerEdgesStayAcyclic(EdgesOf(b.deps), EdgesOf(after.deps));
  }

  lemma NewDependenciesWellFormed(b: Board, t: TaskId, p: Patch, row: TaskRow)
    requires WellFormed(b) && t in b.tasks
    requires NewDependencies(b, t, p).Success?
    ensures var deps := NewDependencies(b, t, p).value;
            WellFormed(WithTask(b, t, row, deps)) && t !in deps
  {
    if p.dependsOn.None? {
      SameDependenciesWellFormed(b, t, row);
      NoSelfDependency(b, t);
    } else {
      ReplacedDependenciesWellFormed(b, t, p.dependsOn.value, row);
    }
  }

  // ---- reconciliation -----------------------------------------------------

  ghost function DoneTasks(b: Board): set<TaskId> {
    set t | t in b.tasks && b.tasks[t].status == Finished
  }

  /** One pass is enough: it parks exactly the direct dependents that are not
      done, makes nothing done or undone (so nobody's blockedness changes) and
      has nothing left to do when it is run again. */
  lemma OnePassReconciles(b: Board, t: TaskId, previous: Status)
    ensures var r := Reconciled(b, t, previous);
      && DoneTasks(r) == DoneTasks(b)
      && (forall u :: IsBlocked(r, u) <==> IsBlocked(b, u))
      && (forall u :: u in b.tasks && r.tasks[u] != b.tasks[u] ==>
            u in Dependents(b.deps, t) && b.tasks[u].status != Finished && !b.tasks[u].Parked()
              && r.tasks[u] == b.tasks[u].Park())
      && (t in b.tasks && previous == Finished && b.tasks[t].status != Finished ==>
            forall u :: u in Dependents(b.deps, t) && u in b.tasks && b.tasks[u].status != Finished ==>
              r.tasks[u].Parked())
      && Reconciled(r, t, previous) == r
  {
    var r := Reconciled(b, t, previous);
    forall u | u in b.tasks ensures r.tasks[u].status == Finished <==> b.tasks[u].status == Finished {}
    SameDoneSameBlocked(b, r);
    PassIsIdempotent(b, t, previous);
  }

  lemma SameDoneSameBlocked(b: Board, c: Board)
    requires b.deps == c.deps && b.tasks.Keys == c.tasks.Keys
    requires forall u :: u in b.tasks ==> (b.tasks[u].status == Finished <==> c.tasks[u].status == Finished)
    ensures forall u :: IsBlocked(c, u) <==> IsBlocked(b, u)
  {
    forall u ensures IsBlocked(c, u) <==> IsBlocked(b, u) {
      assert forall d :: Undone(c.tasks, d) <==> Undone(b.tasks, d);
    }
  }

  lemma PassIsIdempotent(b: Board, t: TaskId, previous: Status)
    ensures Reconciled(Reconciled(b, t, previous), t, previous) == Reconciled(b, t, previous)
  {
    var r := Reconciled(b, t, previous);
    var again := Reconciled(r, t, previous);
    forall u | u in b.tasks ensures again.tasks[u] == r.tasks[u] {}
    assert again.tasks == r.tasks;
  }

  // ---- dependency safety --------------------------------------------------

  /** A task that is not done although one of its dependencies is undone,
      and that is nevertheless out of the inbox, owned or started. */
  predicate Violates(b: Board, t: TaskId) {
    t in b.tasks && b.tasks[t].status != Finished && IsBlocked(b, t) && !b.tasks[t].Parked()
  }

  function Violations(b: Board): set<TaskId> {
    set t | t in b.tasks && Violates(b, t)
  }

  predicate DependencySafe(b: Board) {
    forall t :: t in b.tasks && b.tasks[t].status != Finished && IsBlocked(b, t) ==> b.tasks[t].Parked()
  }

  lemma SafeMeansNoViolations(b: Board)
    ensures DependencySafe(b) <==> Violations(b) == {}
  {
    if !DependencySafe(b) {
      var t :| t in b.tasks && b.tasks[t].status != Finished && IsBlocked(b, t) && !b.tasks[t].Parked();
      assert t in Violations(b);
    }
  }

  lemma BlockedByMeansBlocked(b: Board, t: TaskId, row: TaskRow, deps: seq<TaskId>)
    requires t !in deps
    ensures IsBlocked(WithTask(b, t, row, deps), t) <==> BlockedBy(b.tasks, deps) != []
  {
    var after := WithTask(b, t, row, deps);
    forall d | d in deps ensures Undone(after.tasks, d) <==> Undone(b.tasks, d) {}
    if IsBlocked(after, t) {
      var d :| d in deps && Undone(after.tasks, d);
      assert d in BlockedBy(b.tasks, deps);
    }
    if BlockedBy(b.tasks, deps) != [] {
      var d := BlockedBy(b.tasks, deps)[0];
      assert d in deps && Undone(after.tasks, d);
    }
  }

  /** Rewriting one row and reconciling leaves every other violation exactly as it was. */
  lemma OthersUnharmed(b: Board, t: TaskId, row: TaskRow, deps: seq<TaskId>, u: TaskId)
    requires t in b.tasks && u != t
    requires Violates(Reconciled(WithTask(b, t, row, deps), t, b.tasks[t].status), u)
    ensures Violates(b, u)
    ensures Reconciled(WithTask(b, t, row, deps), t, b.tasks[t].status).tasks[u] == b.tasks[u]
  {
    var mid := WithTask(b, t, row, deps);
    var after := Reconciled(mid, t, b.tasks[t].status);
    OnePassReconciles(mid, t, b.tasks[t].status);
    assert after.tasks[u] == mid.tasks[u] == b.tasks[u];
    var d :| d in DepsOf(mid.deps, u) && Undone(mid.tasks, d);
    assert DepsOf(mid.deps, u) == DepsOf(b.deps, u);
    if d == t && b.tasks[t].status == Finished {
      assert false;
    }
    assert Undone(b.tasks, d);
  }

  /** How the patched row of a successful PATCH and its dependencies come about. */
  ghost predicate Patched(b: Board, t: TaskId, actor: Actor, p: Patch, env: Env, row: TaskRow, deps: seq<TaskId>) {
    && t in b.tasks
    && NewDependencies(b, t, p) == Success(deps)
    && row == (match actor
         case Lead(_) => LeadRow(b.tasks[t], p)
         case Worker(agent, _) => WorkerRow(b.tasks[t], agent, p, env.now)
         case Admin => AdminRow(b.tasks[t], p, BlockedBy(b.tasks, deps), env.now))
    && PatchTask(b, t, actor, p, env) == Success(Reconciled(WithTask(b, t, row, deps), t, b.tasks[t].status))
  }

  lemma PatchShape(b: Board, t: TaskId, actor: Actor, p: Patch, env: Env) returns (row: TaskRow, deps: seq<TaskId>)
    requires PatchTask(b, t, actor, p, env).Success?
    ensures Patched(b, t, actor, p, env, row, deps)
  {
    deps := NewDependencies(b, t, p).value;
    row := match actor
      case Lead(_) => LeadRow(b.tasks[t], p)
      case Worker(agent, _) => WorkerRow(b.tasks[t], agent, p, env.now)
      case Admin => AdminRow(b.tasks[t], p, BlockedBy(b.tasks, deps), env.now);
  }

  /** A blocked task comes out of its own PATCH done, parked or just as active as before. */
  lemma BlockedRowKept(b: Board, t: TaskId, actor: Actor, p: Patch, env: Env, row: TaskRow, deps: seq<TaskId>)
    requires Patched(b, t, actor, p, env, row, deps)
    requires BlockedBy(b.tasks, deps) != [] && row.status != Finished && !row.Parked()
    ensures row.SameActivity(b.tasks[t]) && !actor.Admin?
  {
    hide ValidDependencies, Gates, FinalError, Reconciled, BlockedBy;
  }

  ghost predicate LeadRedirects(actor: Actor, p: Patch) {
    actor.Lead? && p.dependsOn.Some?
  }

  /** No PATCH activates a blocked task. The only task it can turn into a
      violation is the one whose dependencies a lead replaces. */
  lemma PatchAddsNoViolation(b: Board, t: TaskId, actor: Actor, p: Patch, env: Env)
    requires WellFormed(b) && PatchTask(b, t, actor, p, env).Success?
    ensures var after := PatchTask(b, t, actor, p, env).value;
      && Violations(after) <= Violations(b) + (if LeadRedirects(actor, p) then {t} else {})
      && (forall u :: u in Violations(after) ==> u in b.tasks && after.tasks[u].SameActivity(b.tasks[u]))
  {
    var row, deps := PatchShape(b, t, actor, p, env);
    var mid := WithTask(b, t, row, deps);
    var after := PatchTask(b, t, actor, p, env).value;
    NewDependenciesWellFormed(b, t, p, row);
    OnePassReconciles(mid, t, b.tasks[t].status);
    hide LeadPatch, WorkerPatch, AdminPatch, Reconciled, NewDependencies, LeadRow, WorkerRow, AdminRow, Acyclic;
    forall u | u in Violations(after)
      ensures u in b.tasks && after.tasks[u].SameActivity(b.tasks[u])
      ensures u in Violations(b) || (u == t && LeadRedirects(actor, p))
    {
      if u != t {
        OthersUnharmed(b, t, row, deps, u);
      } else {
        OwnTaskUnharmed(b, t, actor, p, env, row, deps);
      }
    }
  }

  lemma OwnTaskUnharmed(b: Board, t: TaskId, actor: Actor, p: Patch, env: Env, row: TaskRow, deps: seq<TaskId>)
    requires WellFormed(b) && Patched(b, t, actor, p, env, row, deps)
    requires Violates(Reconciled(WithTask(b, t, row, deps), t, b.tasks[t].status), t)
    ensures Reconciled(WithTask(b, t, row, deps), t, b.tasks[t].status).tasks[t].SameActivity(b.tasks[t])
    ensures Violates(b, t) || LeadRedirects(actor, p)
  {
    var mid := WithTask(b, t, row, deps);
    NewDependenciesWellFormed(b, t, p, row);
    OnePassReconciles(mid, t, b.tasks[t].status);
    hide LeadPatch, WorkerPatch, AdminPatch, Reconciled, NewDependencies, LeadRow, WorkerRow, AdminRow, Acyclic;
    assert t !in Dependents(mid.deps, t);
    BlockedByMeansBlocked(b, t, row, deps);
    BlockedRowKept(b, t, actor, p, env, row, deps);
    if !LeadRedirects(actor, p) {
      BlockedByMeansBlocked(b, t, b.tasks[t], deps);
      SameBoardBlocked(b, t);
    }
  }

  lemma SameBoardBlocked(b: Board, t: TaskId)
    requires t in b.tasks
    ensures IsBlocked(WithTask(b, t, b.tasks[t], DepsOf(b.deps, t)), t) <==> IsBlocked(b, t)
  {
    assert WithTask(b, t, b.tasks[t], DepsOf(b.deps, t)).tasks == b.tasks;
  }

  lemma NewDependenciesAreTheWanted(b: Board, t: TaskId, p: Patch)
    requires t in b.tasks && p.dependsOn.Some? && NewDependencies(b, t, p).Success?
    ensures BlockedBy(b.tasks, NewDependencies(b, t, p).value) == [] <==>
      forall d :: d in p.dependsOn.value ==> !Undone(b.tasks, d)
  {
    var deps := NewDependencies(b, t, p).value;
    assert Elements(deps) == Elements(p.dependsOn.value);
    forall d ensures d in deps <==> d in p.dependsOn.value {
      assert d in Elements(deps) <==> d in Elements(p.dependsOn.value);
    }
    forall d ensures d in BlockedBy(b.tasks, deps) <==> d in p.dependsOn.value && Undone(b.tasks, d) {}
    if BlockedBy(b.tasks, deps) != [] {
      assert BlockedBy(b.tasks, deps)[0] in BlockedBy(b.tasks, deps);
    }
  }

  lemma LeadLeavesBlockedRow(b: Board, t: TaskId, agent: AgentId, p: Patch, env: Env, row: TaskRow, deps: seq<TaskId>)
    requires Patched(b, t, Lead(agent), p, env, row, deps)
    requires BlockedBy(b.tasks, deps) != []
    ensures row.SameActivity(b.tasks[t])
    ensures p.dependsOn.Some? ==> row.status != Finished
  {
  }

  /** The exempt step, exactly: a lead's PATCH keeps a safe board safe if and
      only if it leaves the dependencies alone, or the new ones are all done,
      or the task is parked already. */
  lemma LeadPatchSafeIff(b: Board, t: TaskId, agent: AgentId, p: Patch, env: Env)
    requires WellFormed(b) && DependencySafe(b)
    requires PatchTask(b, t, Lead(agent), p, env).Success?
    ensures DependencySafe(PatchTask(b, t, Lead(agent), p, env).value) <==>
      (p.dependsOn.None? || (forall d :: d in p.dependsOn.value ==> !Undone(b.tasks, d)) || b.tasks[t].Parked())
  {
    var after := PatchTask(b, t, Lead(agent), p, env).value;
    PatchAddsNoViolation(b, t, Lead(agent), p, env);
    SafeMeansNoViolations(b);
    SafeMeansNoViolations(after);
    if p.dependsOn.Some? {
      var row, deps := PatchShape(b, t, Lead(agent), p, env);
      NewDependenciesAreTheWanted(b, t, p);
      RedirectedViolates(b, t, agent, p, env, row, deps);
    }
  }

  lemma RedirectedViolates(b: Board, t: TaskId, agent: AgentId, p: Patch, env: Env, row: TaskRow, deps: seq<TaskId>)
    requires WellFormed(b) && p.dependsOn.Some?
    requires Patched(b, t, Lead(agent), p, env, row, deps)
    ensures t in Violations(PatchTask(b, t, Lead(agent), p, env).value) <==>
      BlockedBy(b.tasks, deps) != [] && !b.tasks[t].Parked()
  {
    var mid := WithTask(b, t, row, deps);
    NewDependenciesWellFormed(b, t, p, row);
    OnePassReconciles(mid, t, b.tasks[t].status);
    assert t !in Dependents(mid.deps, t);
    BlockedByMeansBlocked(b, t, row, deps);
    if BlockedBy(b.tasks, deps) != [] {
      LeadLeavesBlockedRow(b, t, agent, p, env, row, deps);
    }
  }

  /** Task 1 is running, task 2 waits in the inbox, nothing depends on anything. */
  function TwoTasks(): Board {
    var running := TaskRow(InProgress, Some(3), Some(0), None, Standard, false, None);
    var waiting := TaskRow(Inbox, None, None, None, Standard, false, None);
    Board(map[1 := running, 2 := waiting], map[1 := [], 2 := []], map[], [], BoardFlags(false, false, false, false), {})
  }

  function DependOnTwo(): Patch {
    Patch(None, None, None, None, false, false, Some([2]), false, false)
  }

  lemma DedupeSingle(d: TaskId)
    ensures Dedupe([d]) == [d]
  {
    assert [d][..1] == [d] && [d][..0] == [];
  }

  lemma TwoTasksAccept()
    ensures WellFormed(TwoTasks()) && DependencySafe(TwoTasks())
    ensures NewDependencies(TwoTasks(), 1, DependOnTwo()) == Success([2])
  {
    hide Dedupe, CycleReachable;
    var b := TwoTasks();
    DedupeSingle(2);
    OneEdgeIsAcyclic(EdgesOf(b.deps), 1, 2);
    OneEdgeIsAcyclic(EdgesOf(b.deps[1 := [2]]), 1, 2);
    ReachableIffCyclic(b.tasks.Keys, EdgesOf(b.deps[1 := [2]]));
    hide Acyclic;
  }

  lemma LeadMayRedirect(env: Env)
    requires env.gsdAllowed && NewDependencies(TwoTasks(), 1, DependOnTwo()) == Success([2])
    ensures PatchTask(TwoTasks(), 1, Lead(7), DependOnTwo(), env).Success?
  {
    hide NewDependencies, Reconciled;
  }

  /** The exempt step happens: a running task is made to wait for an unfinished one. */
  lemma LeadPatchCanBreakSafety(env: Env)
    requires env.gsdAllowed
    ensures WellFormed(TwoTasks()) && DependencySafe(TwoTasks())
    ensures PatchTask(TwoTasks(), 1, Lead(7), DependOnTwo(), env).Success?
    ensures !DependencySafe(PatchTask(TwoTasks(), 1, Lead(7), DependOnTwo(), env).value)
  {
    hide WellFormed, DependencySafe, PatchTask;
    TwoTasksAccept();
    LeadMayRedirect(env);
    LeadPatchSafeIff(TwoTasks(), 1, 7, DependOnTwo(), env);
    assert Undone(TwoTasks().tasks, 2);
  }

  lemma OneEdgeIsAcyclic(edges: Edges, u: TaskId, v: TaskId)
    requires u != v && forall w :: Successors(edges, w) <= if w == u then {v} else {}
    ensures Acyclic(edges)
  {
    forall q ensures !IsLoopedPath(edges, q) {
      if IsPath(edges, q) && |q| > 1 {
        assert q[0 + 1] in Successors(edges, q[0]);
        assert [v, u][..1] == [v];
        OrderedHasNoLoop(edges, [v, u], q);
      }
    }
  }

  // ---- the done gate ------------------------------------------------------

  /** What a task must have to become done. */
  ghost predicate MayBecomeDone(b: Board, t: TaskId, row: TaskRow, deps: seq<TaskId>)
    requires t in b.tasks
  {
    && (forall d :: d in deps ==> d in b.tasks && b.tasks[d].status == Finished)
    && (b.flags.requireReviewBeforeDone ==> b.tasks[t].status == Review)
    && (b.flags.requireApprovalForDone ==> HasApprovedApproval(b, t))
    && (b.flags.blockStatusChangesWithPendingApproval ==> !HasPendingApproval(b, t))
    && (IsSwarm(row) ==>
          && Passed(Checks(row.arena), "pr_created")
          && Passed(Checks(row.arena), "ci_passed")
          && Passed(Checks(row.arena), "human_reviewed")
          && (Passed(Checks(row.arena), "ui_labeled") ==> Passed(Checks(row.arena), "ui_screenshot_present")))
  }
  lemma NoMissingChecks(arena: Option<ArenaConfig>)
    requires MissingChecks(arena) == []
    ensures Passed(Checks(arena), "pr_created") && Passed(Checks(arena), "ci_passed")
      && Passed(Checks(arena), "human_reviewed")
    ensures Passed(Checks(arena), "ui_labeled") ==> Passed(Checks(arena), "ui_screenshot_present")
    ensures arena.Some? && (arena.value.uiLabeled ==> Passed(Checks(arena), "ui_labeled"))
  {
    var checks := Checks(arena);
    var missing := Filter(key => !Passed(checks, key), REQUIRED_CHECKS);
    assert missing == [];
    forall key | key in REQUIRED_CHECKS ensures Passed(checks, key) {
      assert key !in missing;
    }
    assert "pr_created" in REQUIRED_CHECKS && "ci_passed" in REQUIRED_CHECKS && "human_reviewed" in REQUIRED_CHECKS;
  }

  lemma DoneRowPassedGates(b: Board, t: TaskId, actor: Actor, p: Patch, env: Env, row: TaskRow, deps: seq<TaskId>)
    requires Patched(b, t, actor, p, env, row, deps)
    requires row.status == Finished && b.tasks[t].status != Finished
    ensures BlockedBy(b.tasks, deps) == []
    ensures Gates(b, t, b.tasks[t].status, row, true) == None
  {
    hide ValidDependencies, Gates, Reconciled, BlockedBy, LeadAssignError, AdminAssignError, ReviewCommented;
  }

  lemma PassedGatesAllow(b: Board, t: TaskId, row: TaskRow, deps: seq<TaskId>)
    requires t in b.tasks && BlockedBy(b.tasks, deps) == []
    requires row.status == Finished && b.tasks[t].status != Finished
    requires Gates(b, t, b.tasks[t].status, row, true) == None
    ensures MayBecomeDone(b, t, row, deps)
  {
    forall d | d in deps ensures d in b.tasks && b.tasks[d].status == Finished {
      assert d !in BlockedBy(b.tasks, deps);
    }
    if IsSwarm(row) {
      NoMissingChecks(row.arena);
    }
  }

  /** On every role path a PATCH makes at most its own task done, and only
      through all the gates; the dependencies are done before and after. */
  lemma DoneGate(b: Board, t: TaskId, actor: Actor, p: Patch, env: Env)
    requires WellFormed(b) && PatchTask(b, t, actor, p, env).Success?
    ensures var after := PatchTask(b, t, actor, p, env).value;
      && DoneTasks(after) <= DoneTasks(b) + {t}
      && (t in DoneTasks(after) && t !in DoneTasks(b) ==>
            && MayBecomeDone(b, t, after.tasks[t], DepsOf(after.deps, t))
            && !IsBlocked(after, t))
  {
    var row, deps := PatchShape(b, t, actor, p, env);
    var mid := WithTask(b, t, row, deps);
    NewDependenciesWellFormed(b, t, p, row);
    OnePassReconciles(mid, t, b.tasks[t].status);
    BlockedByMeansBlocked(b, t, row, deps);
    if row.status == Finished && b.tasks[t].status != Finished {
      DoneRowPassedGates(b, t, actor, p, env, row, deps);
      PassedGatesAllow(b, t, row, deps);
    }
  }

  // ---- start times --------------------------------------------------------

  /** Inbox and review tasks have no start time, tasks in progress have one. */
  predicate StartTimeAgrees(row: TaskRow) {
    && (row.status == Inbox || row.status == Review ==> row.inProgressAt == None)
    && (row.status == InProgress ==> row.inProgressAt.Some?)
  }

  lemma RowKeepsStartTime(b: Board, t: TaskId, actor: Actor, p: Patch, env: Env, row: TaskRow, deps: seq<TaskId>)
    requires Patched(b, t, actor, p, env, row, deps)
    ensures StartTimeAgrees(b.tasks[t]) ==> StartTimeAgrees(row)
    ensures !actor.Lead? && p.status.Some? && p.status != Some(Finished) ==> StartTimeAgrees(row)
  {
    hide NewDependencies, Gates, FinalError, Reconciled, BlockedBy, LeadAssignError, AdminAssignError;
  }

  /** No PATCH and no reconciliation breaks the agreement, and every PATCH by
      a worker or an admin that sets the status restores it unless it sets done. */
  lemma PatchKeepsStartTimes(b: Board, t: TaskId, actor: Actor, p: Patch, env: Env, u: TaskId)
    requires PatchTask(b, t, actor, p, env).Success? && u in b.tasks
    ensures u in PatchTask(b, t, actor, p, env).value.tasks
    ensures var after := PatchTask(b, t, actor, p, env).value;
      && (StartTimeAgrees(b.tasks[u]) ==> StartTimeAgrees(after.tasks[u]))
      && (u == t && !actor.Lead? && p.status.Some? && p.status != Some(Finished) ==> StartTimeAgrees(after.tasks[u]))
  {
    var row, deps := PatchShape(b, t, actor, p, env);
    RowKeepsStartTime(b, t, actor, p, env, row, deps);
    OnePassReconciles(WithTask(b, t, row, deps), t, b.tasks[t].status);
    hide PatchTask, Reconciled;
  }

  // ---- deletion -----------------------------------------------------------

  lemma DeleteKeepsBoard(b: Board, t: TaskId)
    requires WellFormed(b)
    ensures WellFormed(DeleteTask(b, t))
    ensures Violations(DeleteTask(b, t)) <= Violations(b)
    ensures forall u :: u in b.tasks && u != t ==>
      u in DeleteTask(b, t).tasks && DeleteTask(b, t).tasks[u] == b.tasks[u]
  {
    var after := DeleteTask(b, t);
    FewerEdgesStayAcyclic(EdgesOf(b.deps), EdgesOf(after.deps));
    forall u | u in Violations(after) ensures u in Violations(b) {
      var d :| d in DepsOf(after.deps, u) && Undone(after.tasks, d);
      assert d in DepsOf(b.deps, u) && d != t;
      assert Undone(b.tasks, d);
    }
  }

  lemma CreateKeepsBoard(b: Board, t: TaskId, byLead: bool, n: NewTask, env: Env)
    requires WellFormed(b) && CreateTask(b, t, byLead, n, env).Success?
    ensures var after := CreateTask(b, t, byLead, n, env).value;
      && WellFormed(after)
      && Violations(after) <= Violations(b)
      && after.tasks == b.tasks[t := n.Row()]
      && (StartTimeAgrees(n.Row()) <==> n.status != InProgress)
  {
    var deps := ValidDependencies(b, t, n.dependsOn).value;
    var after := CreateTask(b, t, byLead, n, env).value;
    ReplacedDependenciesWellFormed(b, t, n.dependsOn, n.Row());
    BlockedByMeansBlocked(b, t, n.Row(), deps);
    forall u | u in Violations(after) ensures u in Violations(b) {
      var d :| d in DepsOf(after.deps, u) && Undone(after.tasks, d);
      assert u != t;
      assert d in DepsOf(b.deps, u) && Undone(b.tasks, d);
    }
  }

  /** When a creation is accepted, in terms of the tables: its dependencies exist
      and are done, or it starts unowned in the inbox. It is never refused for
      a cycle, because nothing can depend on a task that is not there yet. */
  lemma CreationAcceptedIff(b: Board, t: TaskId, byLead: bool, n: NewTask, env: Env)
    requires WellFormed(b) && !TaskExists(b, t)
    ensures CreateTask(b, t, byLead, n, env).Success? <==>
      && t !in n.dependsOn && (forall d :: d in n.dependsOn ==> d in b.tasks)
      && ((forall d :: d in n.dependsOn ==> !Undone(b.tasks, d)) || (n.assignee.None? && n.status == Inbox))
      && env.tagsKnown && env.customFieldsAccepted
      && (byLead && n.assignee.Some? ==>
            var agent := n.assignee.value;
            agent in env.agents && !env.agents[agent].isLead && !env.agents[agent].otherBoard)
  {
    var deps := Dedupe(n.dependsOn);
    DedupeHolds(n.dependsOn);
    if t !in deps {
      NewTaskClosesNoCycle(b, t, deps);
    }
    NothingMissing(b, deps);
    NothingBlocks(b, deps);
    hide Dedupe, CycleReachable, BlockedBy, WellFormed, Filter, LeadAssignError;
    LeadAssignErrorIff(n.assignee, env);
  }

  lemma DedupeHolds(s: seq<TaskId>)
    ensures forall d :: d in Dedupe(s) <==> d in s
  {
    assert forall d :: d in Dedupe(s) <==> d in Elements(Dedupe(s));
    assert forall d :: d in s <==> d in Elements(s);
  }

  lemma NothingMissing(b: Board, deps: seq<TaskId>)
    ensures Missing(b, deps) == [] <==> forall d :: d in deps ==> d in b.tasks
  {
    if Missing(b, deps) != [] {
      assert Missing(b, deps)[0] in Missing(b, deps);
    }
  }

  lemma NothingBlocks(b: Board, deps: seq<TaskId>)
    ensures BlockedBy(b.tasks, deps) == [] <==> forall d :: d in deps ==> !Undone(b.tasks, d)
  {
    if BlockedBy(b.tasks, deps) != [] {
      assert BlockedBy(b.tasks, deps)[0] in BlockedBy(b.tasks, deps);
    }
  }

  lemma LeadAssignErrorIff(assignee: Option<AgentId>, env: Env)
    ensures LeadAssignError(assignee, env).None? <==>
      (assignee.Some? ==>
         assignee.value in env.agents && !env.agents[assignee.value].isLead && !env.agents[assignee.value].otherBoard)
  {
  }

  lemma NewTaskClosesNoCycle(b: Board, t: TaskId, deps: seq<TaskId>)
    requires WellFormed(b) && t !in b.tasks && t !in deps
    ensures !CycleReachable(b.tasks.Keys, EdgesOf(b.deps[t := deps]))
  {
    var edges := EdgesOf(b.deps[t := deps]);
    if CycleReachable(b.tasks.Keys, edges) {
      var p :| LoopFrom(b.tasks.Keys, edges, p);
      forall i | 0 <= i < |p| - 1 ensures p[i + 1] in Successors(EdgesOf(b.deps), p[i]) {
        NobodyReachesNewTask(b, t, deps, p, i);
      }
      assert IsLoopedPath(EdgesOf(b.deps), p);
    }
  }

  lemma {:induction false} NobodyReachesNewTask(b: Board, t: TaskId, deps: seq<TaskId>, p: seq<TaskId>, i: nat)
    requires WellFormed(b) && t !in b.tasks && t !in deps
    requires IsPath(EdgesOf(b.deps[t := deps]), p) && i < |p| && p[0] in b.tasks
    ensures p[i] != t
    ensures i < |p| - 1 ==> p[i + 1] in Successors(EdgesOf(b.deps), p[i])
  {
    hide Acyclic;
    if i > 0 {
      NobodyReachesNewTask(b, t, deps, p, i - 1);
      assert p[i - 1 + 1] in Successors(EdgesOf(b.deps), p[i - 1]);
      assert p[i] in b.deps[p[i - 1]];
    }
    if i < |p| - 1 {
      assert p[i + 1] in Successors(EdgesOf(b.deps[t := deps]), p[i]);
    }
  }

  // ---- runs ---------------------------------------------------------------

  datatype Step =
    | Create(id: TaskId, byLead: bool, task: NewTask, env: Env)
    | Change(id: TaskId, actor: Actor, patch: Patch, env: Env)
    | Delete(id: TaskId)
    | ResolveApprovals(approvals: map<ApprovalId, ApprovalRow>, links: seq<Link>)
    | SetFlags(flags: BoardFlags)
    | Elsewhere(foreign: set<TaskId>)

  /** A refused request leaves the board as it was. */
  ghost function Next(b: Board, step: Step): Board {
    var r := match step
      case Create(t, byLead, n, env) => CreateTask(b, t, byLead, n, env)
      case Change(t, actor, p, env) => PatchTask(b, t, actor, p, env)
      case Delete(t) => Success(DeleteTask(b, t))
      case ResolveApprovals(approvals, links) => Success(b.(approvals := approvals, links := links))
      case SetFlags(flags) => Success(b.(flags := flags))
      case Elsewhere(foreign) => Success(b.(foreign := foreign));
    if r.Success? then r.value else b
  }

  ghost function Run(b: Board, steps: seq<Step>): Board {
    if steps == [] then b else Next(Run(b, steps[..|steps| - 1]), steps[|steps| - 1])
  }

  predicate Redirects(step: Step) {
    step.Change? && step.actor.Lead? && step.patch.dependsOn.Some?
  }

  /** The tasks whose dependencies some lead replaced during the run. */
  ghost function Redirected(steps: seq<Step>): set<TaskId> {
    set s | s in steps && Redirects(s) :: s.id
  }

  lemma StepKeepsBoard(b: Board, step: Step)
    requires WellFormed(b)
    ensures WellFormed(Next(b, step))
    ensures Violations(Next(b, step)) <= Violations(b) + (if Redirects(step) then {step.id} else {})
    ensures forall u :: u in Violations(Next(b, step)) ==>
      u in b.tasks && Next(b, step).tasks[u].SameActivity(b.tasks[u])
  {
    match step {
      case Create(t, byLead, n, env) =>
        if CreateTask(b, t, byLead, n, env).Success? {
          CreateKeepsBoard(b, t, byLead, n, env);
        }
      case Change(t, actor, p, env) =>
        if PatchTask(b, t, actor, p, env).Success? {
          var row, deps := PatchShape(b, t, actor, p, env);
          NewDependenciesWellFormed(b, t, p, row);
          OnePassReconciles(WithTask(b, t, row, deps), t, b.tasks[t].status);
          PatchAddsNoViolation(b, t, actor, p, env);
        }
      case Delete(t) => DeleteKeepsBoard(b, t);
      case ResolveApprovals(_, _) => SameTasksSameViolations(b, Next(b, step));
      case SetFlags(_) => SameTasksSameViolations(b, Next(b, step));
      case Elsewhere(_) => SameTasksSameViolations(b, Next(b, step));
    }
  }

  lemma SameTasksSameViolations(b: Board, c: Board)
    requires b.tasks == c.tasks && b.deps == c.deps
    ensures Violations(b) == Violations(c)
  {
    forall t ensures IsBlocked(b, t) <==> IsBlocked(c, t) {}
  }

  /** Whole runs: the dependency graph stays acyclic, and a task can only end
      up active while blocked if it began so or a lead redirected it. */
  lemma {:induction false} RunIsSafe(b: Board, steps: seq<Step>)
    requires WellFormed(b)
    ensures WellFormed(Run(b, steps))
    ensures Violations(Run(b, steps)) <= Violations(b) + Redirected(steps)
    ensures DependencySafe(b) && Redirected(steps) == {} ==> DependencySafe(Run(b, steps))
  {
    if steps != [] {
      var front, last := steps[..|steps| - 1], steps[|steps| - 1];
      RunIsSafe(b, front);
      StepKeepsBoard(Run(b, front), last);
      assert last in steps;
      assert Redirected(front) <= Redirected(steps) by {
        assert forall s :: s in front ==> s in steps;
      }
      assert Redirects(last) ==> last.id in Redirected(steps);
    }
    SafeMeansNoViolations(b);
    SafeMeansNoViolations(Run(b, steps));
  }

  ghost predicate CreatesRunning(steps: seq<Step>, t: TaskId) {
    exists s :: s in steps && s.Create? && s.id == t && s.task.status == InProgress
  }

  /** Whole runs: start times agree with the status, except perhaps on a task
      that was created as already in progress. */
  lemma {:induction false} RunKeepsStartTimes(b: Board, steps: seq<Step>, t: TaskId)
    requires t in b.tasks ==> StartTimeAgrees(b.tasks[t])
    requires !CreatesRunning(steps, t)
    ensures t in Run(b, steps).tasks ==> StartTimeAgrees(Run(b, steps).tasks[t])
  {
    if steps != [] {
      var front, last := steps[..|steps| - 1], steps[|steps| - 1];
      assert forall s :: s in front ==> s in steps;
      assert last in steps;
      RunKeepsStartTimes(b, front, t);
      var mid := Run(b, front);
      if last.Change? && PatchTask(mid, last.id, last.actor, last.patch, last.env).Success? {
        var row, deps := PatchShape(mid, last.id, last.actor, last.patch, last.env);
        OnePassReconciles(WithTask(mid, last.id, row, deps), last.id, mid.tasks[last.id].status);
        if t in mid.tasks {
          PatchKeepsStartTimes(mid, last.id, last.actor, last.patch, last.env, t);
        }
      }
    }
  }

  /** How a step may make a task done: created as done behind done dependencies,
      or patched through all the gates. */
  ghost predicate MakesDone(b: Board, step: Step, t: TaskId) {
    var after := Next(b, step);
    && t !in DoneTasks(b) && t in DoneTasks(after) && step.id == t
    && match step
       case Create(_, _, n, _) =>
         !TaskExists(b, t) && n.status == Finished && forall d :: d in n.dependsOn ==> d in DoneTasks(b)
       case Change(_, _, _, _) => t in b.tasks && MayBecomeDone(b, t, after.tasks[t], DepsOf(after.deps, t))
       case _ => false
  }

  lemma CreatedIsNew(b: Board, t: TaskId, byLead: bool, n: NewTask, env: Env)
    requires CreateTask(b, t, byLead, n, env).Success?
    ensures !TaskExists(b, t)
  {
  }

  lemma PatchedIsThere(b: Board, t: TaskId, actor: Actor, p: Patch, env: Env)
    requires PatchTask(b, t, actor, p, env).Success?
    ensures t in b.tasks
  {
  }

  lemma StepMakesDone(b: Board, step: Step, t: TaskId)
    requires WellFormed(b) && t !in DoneTasks(b) && t in DoneTasks(Next(b, step))
    ensures MakesDone(b, step, t)
  {
    hide WellFormed, MayBecomeDone, PatchTask, CreateTask;
    match step {
      case Create(id, byLead, n, env) =>
        CreateKeepsBoard(b, id, byLead, n, env);
        CreatedIsNew(b, id, byLead, n, env);
        CreationAcceptedIff(b, id, byLead, n, env);
        assert forall d :: d in n.dependsOn && !Undone(b.tasks, d) ==> d in DoneTasks(b);
      case Change(id, actor, p, env) =>
        DoneGate(b, id, actor, p, env);
        PatchedIsThere(b, id, actor, p, env);
      case Delete(id) =>
        assert false;
      case ResolveApprovals(_, _) =>
      case SetFlags(_) =>
      case Elsewhere(_) =>
    }
  }

  /** The task is done after each step behind number k. */
  ghost predicate DoneSince(b: Board, steps: seq<Step>, t: TaskId, k: int) {
    forall j: nat :: k < j <= |steps| ==> t in DoneTasks(Run(b, steps[..j]))
  }

  ghost predicate MadeDoneAt(b: Board, steps: seq<Step>, t: TaskId, k: int) {
    0 <= k < |steps| && MakesDone(Run(b, steps[..k]), steps[k], t)
  }

  lemma DoneSinceSnoc(b: Board, steps: seq<Step>, t: TaskId, k: int)
    requires steps != [] && DoneSince(b, steps[..|steps| - 1], t, k) && t in DoneTasks(Run(b, steps))
    ensures DoneSince(b, steps, t, k)
    ensures MadeDoneAt(b, steps[..|steps| - 1], t, k) ==> MadeDoneAt(b, steps, t, k)
  {
    hide Run, DoneTasks, MakesDone;
    var front := steps[..|steps| - 1];
    if 0 <= k < |front| {
      assert front[..k] == steps[..k];
    }
    forall j: nat | k < j <= |steps| ensures t in DoneTasks(Run(b, steps[..j])) {
      if j < |steps| {
        assert front[..j] == steps[..j];
      } else {
        assert steps[..j] == steps;
      }
    }
  }

  /** Whole runs: a task that is done was done all along, or has been so since
      it was created as done, or since a PATCH that took it through all the gates. */
  lemma {:induction false} DoneOverRuns(b: Board, steps: seq<Step>, t: TaskId)
    requires WellFormed(b)
    ensures t in DoneTasks(Run(b, steps)) <==>
      DoneSince(b, steps, t, -1) || exists k :: MadeDoneAt(b, steps, t, k) && DoneSince(b, steps, t, k)
  {
    hide WellFormed, MakesDone, DoneTasks, Next, Violations, DependencySafe;
    assert steps[..|steps|] == steps;
    if steps != [] && t in DoneTasks(Run(b, steps)) {
      var n := |steps| - 1;
      var front := steps[..n];
      RunIsSafe(b, front);
      hide Run;
      if t in DoneTasks(Run(b, front)) {
        DoneOverRuns(b, front, t);
        var k: int := -1;
        if !DoneSince(b, front, t, -1) {
          k :| MadeDoneAt(b, front, t, k) && DoneSince(b, front, t, k);
        }
        DoneSinceSnoc(b, steps, t, k);
      } else {
        LastStepMakesDone(b, steps, t);
      }
    }
  }

  lemma LastStepMakesDone(b: Board, steps: seq<Step>, t: TaskId)
    requires steps != [] && WellFormed(Run(b, steps[..|steps| - 1]))
    requires t in DoneTasks(Run(b, steps)) && t !in DoneTasks(Run(b, steps[..|steps| - 1]))
    ensures MadeDoneAt(b, steps, t, |steps| - 1) && DoneSince(b, steps, t, |steps| - 1)
  {
    hide WellFormed, MakesDone, DoneTasks, Next;
    var n := |steps| - 1;
    StepMakesDone(Run(b, steps[..n]), steps[n], t);
    assert steps[..|steps|] == steps;
  }
}
