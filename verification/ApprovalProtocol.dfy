/** Approval requests that run at the same time, each split into reading,
    locking task rows one by one, checking and committing, interleaved with the
    task requests of TaskSafety.dfy. A request that checks locks its rows
    exclusively, in ascending order; a creation that need not check takes the
    shared locks of its foreign keys, in the order of its list. */
module ApprovalProtocol {
  import opened Prelude
  import opened BoardModel
  import opened TaskRules
  import Safety = TaskSafety
  import opened ApprovalRules

  type RequestId = nat

  /** `Resolve` remembers the status that was read when the request began. */
  datatype Kind =
    | Insert(status: ApprovalStatus)
    | Resolve(approval: ApprovalId, prior: ApprovalStatus, target: ApprovalStatus)
  {
    predicate NeedsCheck() {
      if Insert? then status == Pending else target == Pending && prior != Pending
    }

    function Excluded(): Option<ApprovalId> {
      if Insert? then None else Some(approval)
    }
  }

  /** `todo` holds the row locks still to be taken; `ready` says that nothing is
      left to check. */
  datatype Request = Request(kind: Kind, tasks: seq<TaskId>, todo: seq<TaskId>, ready: bool)

  datatype Share = Share(task: TaskId, holder: RequestId)

  /** Committed tables, the requests in flight, and the exclusive and shared row
      locks they hold. */
  datatype Server = Server(
    board: Board,
    requests: map<RequestId, Request>,
    locks: map<TaskId, RequestId>,
    shares: set<Share>)

  function Start(b: Board): Server {
    Server(b, map[], map[], {})
  }

  predicate IsShared(s: Server, t: TaskId) {
    exists h :: h in s.shares && h.task == t
  }

  datatype Event =
    | BeginInsert(r: RequestId, status: ApprovalStatus, wanted: seq<TaskId>)
    | BeginResolve(r: RequestId, approval: ApprovalId, target: ApprovalStatus)
    | Lock(r: RequestId)
    | Check(r: RequestId)
    | Commit(r: RequestId, id: ApprovalId)
    | Abort(r: RequestId)
    | TaskRequest(step: Safety.Step)

  predicate Ascending(s: seq<TaskId>) {
    forall i, j :: 0 <= i < j < |s| ==> s[i] < s[j]
  }

  function InsertSorted(x: TaskId, s: seq<TaskId>): (r: seq<TaskId>)
    requires Ascending(s)
    ensures forall y :: y in r <==> y == x || y in s
    ensures Ascending(r)
  {
    if s == [] then [x]
    else
      assert s == [s[0]] + s[1..];
      if x < s[0] then [x] + s
      else if x == s[0] then s
      else
        var rest := InsertSorted(x, s[1..]);
        assert forall i :: 0 <= i < |rest| ==> rest[i] in rest;
        [s[0]] + rest
  }

  /** `sorted({*task_ids})`. */
  function Sorted(s: seq<TaskId>): (r: seq<TaskId>)
    ensures forall y :: y in r <==> y in s
    ensures Ascending(r)
  {
    if s == [] then []
    else
      assert s == s[..|s| - 1] + [s[|s| - 1]];
      InsertSorted(s[|s| - 1], Sorted(s[..|s| - 1]))
  }

  function Started(kind: Kind, tasks: seq<TaskId>): Request {
    if kind.NeedsCheck() then Request(kind, tasks, Sorted(tasks), tasks == [])
    else Request(kind, tasks, if kind.Insert? then tasks else [], true)
  }

  /** The end of a transaction gives back its locks. */
  function Finished(s: Server, r: RequestId): Server {
    s.(requests := s.requests - {r},
       locks := map t | t in s.locks && s.locks[t] != r :: s.locks[t],
       shares := set h | h in s.shares && h.holder != r)
  }

  /** Somebody holds a lock that the request waits for. */
  predicate MustWait(s: Server, kind: Kind, t: TaskId) {
    TaskExists(s.board, t) && (t in s.locks || (kind.NeedsCheck() && IsShared(s, t)))
  }

  /** The next lock. A row that does not exist is not locked exclusively, and a
      foreign key to it is refused. */
  function Locked(s: Server, r: RequestId): Server
    requires r in s.requests
  {
    var q := s.requests[r];
    if q.todo == [] || MustWait(s, q.kind, q.todo[0]) then s
    else
      var t := q.todo[0];
      var next := s.(requests := s.requests[r := q.(todo := q.todo[1..])]);
      if !q.kind.NeedsCheck() then
        if TaskExists(s.board, t) then next.(shares := s.shares + {Share(t, r)}) else Finished(s, r)
      else if TaskExists(s.board, t) then next.(locks := s.locks[t := r])
      else next
  }

  function Checked(s: Server, r: RequestId): Server
    requires r in s.requests
  {
    var q := s.requests[r];
    if q.todo != [] || q.ready then s
    else if HasConflict(s.board, q.tasks, q.kind.Excluded()) then Finished(s, r)
    else s.(requests := s.requests[r := q.(ready := true)])
  }

  /** A new identifier, which nothing in the tables or in flight mentions. */
  predicate FreshApproval(s: Server, a: ApprovalId) {
    && a !in s.board.approvals
    && forall r :: r in s.requests && s.requests[r].kind.Resolve? ==> s.requests[r].kind.approval != a
  }

  predicate FreshTask(s: Server, t: TaskId) {
    && !TaskExists(s.board, t)
    && forall r :: r in s.requests ==> t !in s.requests[r].tasks
  }

  /** Foreign keys are checked here, and a row that is gone cannot be updated.
      The status is written only when it differs from the one that was read. */
  function Committed(s: Server, r: RequestId, id: ApprovalId): Server
    requires r in s.requests
  {
    var q := s.requests[r];
    if !q.ready || q.todo != [] then s
    else match q.kind
      case Insert(status) =>
        if exists t :: t in q.tasks && !TaskExists(s.board, t) then Finished(s, r)
        else if !FreshApproval(s, id) then s
        else Finished(s, r).(board := Inserted(s.board, id, status, q.tasks))
      case Resolve(a, prior, target) =>
        if a !in s.board.approvals || target == prior then Finished(s, r)
        else Finished(s, r).(board := Resolved(s.board, a, target))
  }

  predicate TaskStepAllowed(s: Server, step: Safety.Step) {
    match step
    case Create(t, _, _, _) => FreshTask(s, t)
    case Delete(t) => t !in s.locks && !IsShared(s, t)
    case ResolveApprovals(_, _) => false
    case Elsewhere(foreign) => s.board.foreign <= foreign && forall t :: t in foreign ==>
      t in s.board.foreign || FreshTask(s, t)
    case _ => true
  }

  /** An event that is not possible leaves the server as it is. */
  ghost function Next(s: Server, e: Event): Server {
    match e
    case BeginInsert(r, status, wanted) =>
      if r in s.requests then s
      else s.(requests := s.requests[r := Started(Insert(status), Dedupe(wanted))])
    case BeginResolve(r, a, target) =>
      if r in s.requests || a !in s.board.approvals then s
      else s.(requests := s.requests[r := Started(Resolve(a, s.board.approvals[a].status, target), TasksOf(s.board,
        a))])
    case Lock(r) => if r in s.requests then Locked(s, r) else s
    case Check(r) => if r in s.requests then Checked(s, r) else s
    case Commit(r, id) => if r in s.requests then Committed(s, r, id) else s
    case Abort(r) => Finished(s, r)
    case TaskRequest(step) =>
      if TaskStepAllowed(s, step) then s.(board := Safety.Next(s.board, step)) else s
  }

  ghost function Run(s: Server, events: seq<Event>): Server {
    if events == [] then s else Next(Run(s, events[..|events| - 1]), events[|events| - 1])
  }

  // ---- the invariant ---------------------------------------------------------

  ghost predicate Holds(s: Server, r: RequestId, t: TaskId) {
    t in s.locks && s.locks[t] == r
  }

  /** What a request in flight may rely on. */
  ghost predicate RequestOk(s: Server, r: RequestId)
    requires r in s.requests
  {
    var q := s.requests[r];
    && (forall t :: t in q.todo ==> t in q.tasks)
    && (q.kind.NeedsCheck() ==>
          && Ascending(q.todo)
          && (q.ready ==> q.todo == [])
          && (forall t :: t in q.tasks ==> t in q.todo || !TaskExists(s.board, t) || Holds(s, r, t))
          && (q.ready ==> !HasConflict(s.board, q.tasks, q.kind.Excluded())))
    && (q.kind.Resolve? && q.kind.approval in s.board.approvals ==>
          forall t :: Concerns(s.board.links, q.kind.approval, s.board.approvals[q.kind.approval], t) ==> t in q.tasks)
  }

  /** Exclusive locks are held by requests in flight, on rows below those still to be locked. */
  ghost predicate LocksOk(s: Server) {
    forall t :: t in s.locks ==>
      && TaskExists(s.board, t) && s.locks[t] in s.requests
      && t in s.requests[s.locks[t]].tasks && s.requests[s.locks[t]].kind.NeedsCheck()
      && forall u :: u in s.requests[s.locks[t]].todo ==> t < u
  }

  ghost predicate Invariant(s: Server) {
    && References(s.board) && OnePending(s.board) && LocksOk(s)
    && forall r :: r in s.requests ==> RequestOk(s, r)
  }

  // ---- each event keeps it ------------------------------------------------------

  lemma BeginKeeps(s: Server, r: RequestId, kind: Kind, tasks: seq<TaskId>)
    requires Invariant(s) && r !in s.requests
    requires kind.Resolve? && kind.approval in s.board.approvals ==>
      forall t :: Concerns(s.board.links, kind.approval, s.board.approvals[kind.approval], t) ==> t in tasks
    ensures Invariant(s.(requests := s.requests[r := Started(kind, tasks)]))
  {
    hide Concerns, References, OnePending, PendingOn;
    var after := s.(requests := s.requests[r := Started(kind, tasks)]);
    forall q | q in after.requests ensures RequestOk(after, q) {
      if q != r {
        assert RequestOk(s, q);
      }
    }
  }

  lemma FinishKeepsRequest(s: Server, r: RequestId, p: RequestId)
    requires p in s.requests && p != r && RequestOk(s, p)
    ensures RequestOk(Finished(s, r), p)
  {
    hide Concerns, References, OnePending, HasConflict, LocksOk;
  }

  lemma FinishKeepsLocks(s: Server, r: RequestId)
    requires LocksOk(s)
    ensures LocksOk(Finished(s, r))
  {
  }

  lemma FinishKeeps(s: Server, r: RequestId)
    requires Invariant(s)
    ensures Invariant(Finished(s, r))
  {
    hide References, OnePending, RequestOk, LocksOk;
    FinishKeepsLocks(s, r);
    forall p | p in Finished(s, r).requests ensures RequestOk(Finished(s, r), p) {
      FinishKeepsRequest(s, r, p);
    }
  }

  lemma LockKeepsLocks(s: Server, r: RequestId)
    requires r in s.requests && RequestOk(s, r) && LocksOk(s) && r in Locked(s, r).requests
    ensures LocksOk(Locked(s, r))
  {
    hide Concerns, References, OnePending, HasConflict, IsShared, Ascending, TaskExists;
    var q := s.requests[r];
    if q.todo != [] {
      assert q.todo == [q.todo[0]] + q.todo[1..];
      AscendingTail(q.todo);
    }
  }

  lemma LockKeepsOwnRequest(s: Server, r: RequestId)
    requires r in s.requests && RequestOk(s, r) && r in Locked(s, r).requests
    ensures RequestOk(Locked(s, r), r)
  {
    hide Concerns, References, OnePending, HasConflict, LocksOk, IsShared;
    var q := s.requests[r];
    if q.todo != [] {
      assert q.todo == [q.todo[0]] + q.todo[1..];
      AscendingTail(q.todo);
    }
    hide Ascending;
  }

  lemma AscendingTail(s: seq<TaskId>)
    requires s != []
    ensures Ascending(s) ==> Ascending(s[1..]) && forall t :: t in s[1..] ==> s[0] < t
  {
  }

  lemma LockKeepsOtherRequest(s: Server, r: RequestId, p: RequestId)
    requires r in s.requests && p in s.requests && p != r && RequestOk(s, p) && r in Locked(s, r).requests
    ensures RequestOk(Locked(s, r), p)
  {
    hide Concerns, References, OnePending, HasConflict, LocksOk, Ascending, IsShared;
  }

  lemma LockKeeps(s: Server, r: RequestId)
    requires Invariant(s) && r in s.requests
    ensures Invariant(Locked(s, r))
  {
    hide References, OnePending, RequestOk, LocksOk;
    if r !in Locked(s, r).requests {
      FinishKeeps(s, r);
    } else {
      LockKeepsLocks(s, r);
      forall p | p in s.requests ensures RequestOk(Locked(s, r), p) {
        if p == r {
          LockKeepsOwnRequest(s, r);
        } else {
          LockKeepsOtherRequest(s, r, p);
        }
      }
    }
  }

  lemma ReadyKeepsRequest(s: Server, r: RequestId, p: RequestId)
    requires r in s.requests && p in s.requests && RequestOk(s, r) && RequestOk(s, p)
    requires s.requests[r].todo == [] && !s.requests[r].ready
      && !HasConflict(s.board, s.requests[r].tasks, s.requests[r].kind.Excluded())
    ensures RequestOk(s.(requests := s.requests[r := s.requests[r].(ready := true)]), p)
  {
    hide Concerns, References, OnePending, HasConflict, LocksOk;
  }

  lemma CheckKeeps(s: Server, r: RequestId)
    requires Invariant(s) && r in s.requests
    ensures Invariant(Checked(s, r))
  {
    hide References, OnePending, RequestOk, HasConflict;
    FinishKeeps(s, r);
    var after := Checked(s, r);
    if r in after.requests && after != s {
      forall p | p in s.requests ensures RequestOk(after, p) {
        ReadyKeepsRequest(s, r, p);
      }
    }
  }

  /** Another request that has passed its check holds locks on all the tasks
      that exist, so nothing that r commits can concern them. */
  lemma CommitLeavesOthers(s: Server, r: RequestId, p: RequestId, t: TaskId)
    requires Invariant(s) && r in s.requests && p in s.requests && p != r
    requires s.requests[r].ready && s.requests[r].kind.NeedsCheck() && s.requests[p].ready
      && s.requests[p].kind.NeedsCheck()
    requires TaskExists(s.board, t)
    ensures t !in s.requests[r].tasks || t !in s.requests[p].tasks
  {
    hide Concerns, References, OnePending, HasConflict;
    assert RequestOk(s, r) && RequestOk(s, p);
  }

  /** What another request, or a task request, may do to the tables under p. */
  lemma BoardKeepsRequest(s: Server, board: Board, p: RequestId)
    requires p in s.requests && RequestOk(s, p)
    requires forall t :: t in s.requests[p].tasks && TaskExists(board, t) ==> TaskExists(s.board, t)
    requires var q := s.requests[p].kind;
      q.Resolve? && q.approval in board.approvals ==>
        && q.approval in s.board.approvals
        && forall t :: Concerns(board.links, q.approval, board.approvals[q.approval], t) ==>
          Concerns(s.board.links, q.approval, s.board.approvals[q.approval], t)
    requires var q := s.requests[p];
      q.ready && q.kind.NeedsCheck() ==>
        forall c: ApprovalId, t: TaskId :: PendingOn(board, c, t) && t in q.tasks && q.kind.Excluded() != Some(c) ==>
          PendingOn(s.board, c, t) && c in s.board.approvals
    ensures RequestOk(s.(board := board), p)
  {
    hide Concerns, PendingOn;
  }

  lemma CommitInsertKeeps(s: Server, r: RequestId, id: ApprovalId)
    requires Invariant(s) && r in s.requests && s.requests[r].ready && s.requests[r].kind.Insert?
    requires FreshApproval(s, id)
    requires forall t :: t in s.requests[r].tasks ==> TaskExists(s.board, t)
    ensures Invariant(Finished(s, r).(board := Inserted(s.board, id, s.requests[r].kind.status, s.requests[r].tasks)))
  {
    var q := s.requests[r];
    var after := Finished(s, r).(board := Inserted(s.board, id, q.kind.status, q.tasks));
    hide Concerns, References, OnePending, HasConflict, LocksOk;
    assert RequestOk(s, r);
    InsertionConcerns(s.board, id, q.kind.status, q.tasks);
    InsertionKeepsOnePending(s.board, id, q.kind.status, q.tasks);
    FinishKeeps(s, r);
    assert LocksOk(after) by {
      hide *;
      SameLocks(Finished(s, r), after);
    }
    forall p | p in after.requests ensures RequestOk(after, p) {
      InsertKeepsRequest(s, r, p, id);
    }
  }

  lemma SameLocks(s: Server, after: Server)
    requires LocksOk(s) && after.locks == s.locks && after.requests == s.requests
      && (forall t :: TaskExists(s.board, t) ==> TaskExists(after.board, t))
    ensures LocksOk(after)
  {
  }

  lemma InsertKeepsRequest(s: Server, r: RequestId, p: RequestId, id: ApprovalId)
    requires Invariant(s) && r in s.requests && s.requests[r].ready && s.requests[r].kind.Insert?
    requires FreshApproval(s, id) && p in s.requests && p != r
    requires forall t :: t in s.requests[r].tasks ==> TaskExists(s.board, t)
    ensures RequestOk(Finished(s, r).(board := Inserted(s.board, id, s.requests[r].kind.status,
      s.requests[r].tasks)), p)
  {
    var q := s.requests[r];
    var board := Inserted(s.board, id, q.kind.status, q.tasks);
    InsertionConcerns(s.board, id, q.kind.status, q.tasks);
    hide Concerns, References, OnePending, PendingOn, LocksOk, RequestOk, HasConflict;
    forall c, t | PendingOn(board, c, t) && t in s.requests[p].tasks && s.requests[p].ready
      && s.requests[p].kind.NeedsCheck()
      ensures PendingOn(s.board, c, t) && c in s.board.approvals
    {
      InsertMeetsNobody(s, r, p, id, c, t);
    }
    BoardKeepsRequest(s, board, p);
    FinishKeepsRequest(s.(board := board), r, p);
  }

  lemma InsertMeetsNobody(s: Server, r: RequestId, p: RequestId, id: ApprovalId, c: ApprovalId, t: TaskId)
    requires Invariant(s) && r in s.requests && s.requests[r].ready && s.requests[r].kind.Insert?
    requires p in s.requests && p != r && s.requests[p].ready && s.requests[p].kind.NeedsCheck()
    requires FreshApproval(s, id)
    requires forall u :: u in s.requests[r].tasks ==> TaskExists(s.board, u)
    requires t in s.requests[p].tasks
    requires PendingOn(Inserted(s.board, id, s.requests[r].kind.status, s.requests[r].tasks), c, t)
    ensures PendingOn(s.board, c, t) && c in s.board.approvals
  {
    var q := s.requests[r];
    InsertionConcerns(s.board, id, q.kind.status, q.tasks);
    hide References, OnePending, HasConflict, Concerns, Invariant;
    if c == id && t in q.tasks && q.kind.NeedsCheck() {
      CommitLeavesOthers(s, r, p, t);
    }
  }

  lemma CommitResolveKeeps(s: Server, r: RequestId)
    requires Invariant(s) && r in s.requests && s.requests[r].ready && s.requests[r].kind.Resolve?
    requires s.requests[r].kind.approval in s.board.approvals && s.requests[r].kind.target != s.requests[r].kind.prior
    ensures Invariant(Finished(s, r).(board := Resolved(s.board, s.requests[r].kind.approval,
      s.requests[r].kind.target)))
  {
    var q := s.requests[r];
    var a := q.kind.approval;
    var after := Finished(s, r).(board := Resolved(s.board, a, q.kind.target));
    hide References, OnePending, LocksOk, Concerns;
    assert RequestOk(s, r);
    ResolutionKeepsOnePending(s.board, a, q.kind.target);
    FinishKeeps(s, r);
    SameLocks(Finished(s, r), after);
    forall p | p in after.requests ensures RequestOk(after, p) {
      ResolveKeepsRequest(s, r, p);
    }
  }

  lemma ResolveKeepsRequest(s: Server, r: RequestId, p: RequestId)
    requires Invariant(s) && r in s.requests && s.requests[r].ready && s.requests[r].kind.Resolve?
    requires s.requests[r].kind.approval in s.board.approvals && s.requests[r].kind.target != s.requests[r].kind.prior
    requires p in s.requests && p != r
    ensures RequestOk(Finished(s, r).(board := Resolved(s.board, s.requests[r].kind.approval,
      s.requests[r].kind.target)), p)
  {
    var q := s.requests[r];
    var a := q.kind.approval;
    var board := Resolved(s.board, a, q.kind.target);
    hide OnePending, LocksOk, HasConflict;
    assert RequestOk(s, p) && RequestOk(s, r);
    hide RequestOk;
    forall c, t | PendingOn(board, c, t) && t in s.requests[p].tasks && s.requests[p].ready
      && s.requests[p].kind.NeedsCheck()
      ensures PendingOn(s.board, c, t) && c in s.board.approvals
    {
      if c == a && q.kind.NeedsCheck() {
        ResolveMeetsNobody(s, r, p, t);
      }
    }
    hide PendingOn, Concerns;
    BoardKeepsRequest(s, board, p);
    FinishKeepsRequest(s.(board := board), r, p);
  }

  lemma ResolveMeetsNobody(s: Server, r: RequestId, p: RequestId, t: TaskId)
    requires Invariant(s) && r in s.requests && s.requests[r].ready && s.requests[r].kind.Resolve?
      && s.requests[r].kind.NeedsCheck()
    requires p in s.requests && p != r && s.requests[p].ready && s.requests[p].kind.NeedsCheck()
    requires s.requests[r].kind.approval in s.board.approvals
    requires Concerns(s.board.links, s.requests[r].kind.approval, s.board.approvals[s.requests[r].kind.approval], t)
    ensures t !in s.requests[p].tasks
  {
    hide Concerns, References, OnePending, HasConflict, LocksOk;
    assert RequestOk(s, r);
    ConcernedTasksExist(s.board, s.requests[r].kind.approval, t);
    CommitLeavesOthers(s, r, p, t);
  }

  lemma ConcernedTasksExist(b: Board, a: ApprovalId, t: TaskId)
    requires References(b) && a in b.approvals && Concerns(b.links, a, b.approvals[a], t)
    ensures TaskExists(b, t)
  {
  }

  lemma CommitKeeps(s: Server, r: RequestId, id: ApprovalId)
    requires Invariant(s) && r in s.requests
    ensures Invariant(Committed(s, r, id))
  {
    hide Invariant;
    var q := s.requests[r];
    FinishKeeps(s, r);
    if q.ready && q.todo == [] {
      match q.kind {
        case Insert(_) =>
          if FreshApproval(s, id) && forall t :: t in q.tasks ==> TaskExists(s.board, t) {
            CommitInsertKeeps(s, r, id);
          }
        case Resolve(a, prior, target) =>
          if a in s.board.approvals && target != prior {
            CommitResolveKeeps(s, r);
          }
      }
    }
  }

  // ---- task requests in between -----------------------------------------------------

  lemma TaskStepFrame(b: Board, step: Safety.Step)
    requires !step.Delete? && !step.ResolveApprovals?
    ensures var after := Safety.Next(b, step);
      && after.approvals == b.approvals && after.links == b.links
      && b.tasks.Keys <= after.tasks.Keys
      && after.tasks.Keys <= b.tasks.Keys + (if step.Create? then {step.id} else {})
      && after.foreign == if step.Elsewhere? then step.foreign else b.foreign
  {
    if step.Change? && PatchTask(b, step.id, step.actor, step.patch, step.env).Success? {
      var row, deps := Safety.PatchShape(b, step.id, step.actor, step.patch, step.env);
    }
  }

  lemma AllowedStepKeepsTasks(s: Server, step: Safety.Step)
    requires TaskStepAllowed(s, step) && !step.Delete?
    ensures var after := Safety.Next(s.board, step);
      && (forall t :: TaskExists(s.board, t) ==> TaskExists(after, t))
      && (forall r, t :: r in s.requests && t in s.requests[r].tasks && TaskExists(after, t) ==> TaskExists(s.board, t))
  {
    TaskStepFrame(s.board, step);
    hide Safety.Next;
    var after := Safety.Next(s.board, step);
    assert forall t :: t in s.board.tasks.Keys ==> t in after.tasks.Keys;
    assert forall t :: t in after.tasks.Keys ==> t in s.board.tasks.Keys || (step.Create? && t == step.id);
    forall r, t | r in s.requests && t in s.requests[r].tasks && TaskExists(after, t) ensures TaskExists(s.board, t) {
      assert t in after.tasks ==> t in after.tasks.Keys;
    }
  }

  lemma TaskStepKeeps(s: Server, step: Safety.Step)
    requires Invariant(s) && TaskStepAllowed(s, step) && !step.Delete?
    ensures Invariant(s.(board := Safety.Next(s.board, step)))
  {
    var after := s.(board := Safety.Next(s.board, step));
    TaskStepFrame(s.board, step);
    AllowedStepKeepsTasks(s, step);
    hide Safety.Next, LocksOk, Concerns, TaskExists, TaskStepAllowed;
    SameLocks(s, after);
    SameApprovals(s.board, after.board);
    hide PendingOn, RequestOk, References, OnePending;
    forall p | p in s.requests ensures RequestOk(after, p) {
      BoardKeepsRequest(s, after.board, p);
    }
  }

  lemma SameApprovals(b: Board, c: Board)
    requires b.approvals == c.approvals && b.links == c.links && forall t :: TaskExists(b, t) ==> TaskExists(c, t)
    ensures forall a, t :: PendingOn(c, a, t) <==> PendingOn(b, a, t) && a in b.approvals
    ensures References(b) ==> References(c)
    ensures OnePending(b) ==> OnePending(c)
  {
    hide Concerns;
    forall a, t ensures PendingOn(c, a, t) <==> PendingOn(b, a, t) && a in b.approvals {}
    hide PendingOn;
    if References(b) {
      forall l | l in c.links && l.approval in c.approvals
        ensures exists t :: c.approvals[l.approval].primary == Some(t) && Link(l.approval, t) in c.links
      {
        var t :| b.approvals[l.approval].primary == Some(t) && Link(l.approval, t) in b.links;
      }
    }
  }

  lemma DeletionKeeps(s: Server, t: TaskId)
    requires Invariant(s) && t !in s.locks
    ensures Invariant(s.(board := DeleteTask(s.board, t)))
  {
    var after := s.(board := DeleteTask(s.board, t));
    assert forall u :: TaskExists(after.board, u) <==> TaskExists(s.board, u) && u != t;
    DeletionKeepsReferences(s.board, t);
    forall a, u | PendingOn(after.board, a, u) ensures PendingOn(s.board, a, u) {
      DeletionShrinks(s.board, t, a, u);
    }
    hide Concerns, References, PendingOn, DeleteTask;
    forall p | p in s.requests ensures RequestOk(after, p) {
      DeletionKeepsRequest(s, t, p);
    }
    hide RequestOk;
  }

  lemma DeletionKeepsRequest(s: Server, t: TaskId, p: RequestId)
    requires Invariant(s) && t !in s.locks && p in s.requests
    ensures RequestOk(s.(board := DeleteTask(s.board, t)), p)
  {
    var board := DeleteTask(s.board, t);
    assert forall u :: TaskExists(board, u) <==> TaskExists(s.board, u) && u != t;
    forall a, u | a in board.approvals && Concerns(board.links, a, board.approvals[a], u)
      ensures a in s.board.approvals && Concerns(s.board.links, a, s.board.approvals[a], u)
      ensures s.board.approvals[a].status == board.approvals[a].status
    {
      DeletionShrinks(s.board, t, a, u);
    }
    hide Concerns, References, OnePending, LocksOk, DeleteTask, RequestOk;
    BoardKeepsRequest(s, board, p);
  }

  // ---- every run ------------------------------------------------------------------

  lemma EventKeeps(s: Server, e: Event)
    requires Invariant(s)
    ensures Invariant(Next(s, e))
  {
    hide Invariant, Committed, Checked, Locked, Finished;
    match e {
      case BeginInsert(r, status, wanted) =>
        if r !in s.requests {
          BeginKeeps(s, r, Insert(status), Dedupe(wanted));
        }
      case BeginResolve(r, a, target) =>
        if r !in s.requests && a in s.board.approvals {
          TasksOfAre(s.board, a);
          BeginKeeps(s, r, Resolve(a, s.board.approvals[a].status, target), TasksOf(s.board, a));
        }
      case Lock(r) =>
        if r in s.requests {
          LockKeeps(s, r);
        }
      case Check(r) =>
        if r in s.requests {
          CheckKeeps(s, r);
        }
      case Commit(r, id) =>
        if r in s.requests {
          CommitKeeps(s, r, id);
        }
      case Abort(r) => FinishKeeps(s, r);
      case TaskRequest(step) =>
        if TaskStepAllowed(s, step) {
          if step.Delete? {
            DeletionKeeps(s, step.id);
          } else {
            TaskStepKeeps(s, step);
          }
        }
    }
  }

  lemma {:induction false} RunKeeps(s: Server, events: seq<Event>)
    requires Invariant(s)
    ensures Invariant(Run(s, events))
  {
    hide Invariant, Next;
    if events != [] {
      RunKeeps(s, events[..|events| - 1]);
      EventKeeps(Run(s, events[..|events| - 1]), events[|events| - 1]);
    }
  }

  /** However the requests interleave, no task ever has two pending approvals. */
  lemma OnePendingInEveryRun(b: Board, events: seq<Event>)
    requires References(b) && OnePending(b)
    ensures var after := Run(Start(b), events).board;
      References(after) && OnePending(after)
  {
    hide Run, References, OnePending;
    RunKeeps(Start(b), events);
  }

  /** Approval requests and task requests compose: seen from the tasks, every
      interleaving is a run of TaskSafety.dfy, so it keeps what those runs keep. */
  lemma {:induction false} RunIsBoardRun(s: Server, events: seq<Event>) returns (steps: seq<Safety.Step>)
    ensures Run(s, events).board == Safety.Run(s.board, steps)
    ensures forall step :: step in steps && Safety.Redirects(step) ==> TaskRequest(step) in events
  {
    hide Next, Safety.Next;
    if events == [] {
      steps := [];
    } else {
      var front, e := events[..|events| - 1], events[|events| - 1];
      assert events == front + [e];
      var before := RunIsBoardRun(s, front);
      var step := EventIsBoardStep(Run(s, front), e);
      steps := before + [step];
      assert steps[..|steps| - 1] == before;
    }
  }

  lemma EventIsBoardStep(s: Server, e: Event) returns (step: Safety.Step)
    ensures Safety.Next(s.board, step) == Next(s, e).board
    ensures Safety.Redirects(step) ==> e == TaskRequest(step)
  {
    var after := Next(s, e).board;
    if e.TaskRequest? && TaskStepAllowed(s, e.step) {
      step := e.step;
    } else {
      hide HasConflict, FreshApproval, TaskStepAllowed;
      step := Safety.ResolveApprovals(after.approvals, after.links);
    }
  }

  lemma DependenciesStaySafe(b: Board, events: seq<Event>)
    requires Safety.WellFormed(b) && Safety.DependencySafe(b)
    requires forall step :: TaskRequest(step) in events ==> !Safety.Redirects(step)
    ensures Safety.WellFormed(Run(Start(b), events).board)
    ensures Safety.DependencySafe(Run(Start(b), events).board)
  {
    hide Safety.WellFormed, Safety.DependencySafe, Safety.Violations, Safety.Run, Run;
    var steps := RunIsBoardRun(Start(b), events);
    Safety.RunIsSafe(b, steps);
    assert Safety.Redirected(steps) == {};
  }

  // ---- no deadlock -------------------------------------------------------------------

  lemma {:induction false} LargestExists(s: set<TaskId>) returns (x: TaskId)
    requires s != {}
    ensures x in s && forall y :: y in s ==> y <= x
  {
    var z :| z in s;
    if s == {z} {
      x := z;
    } else {
      assert s == (s - {z}) + {z};
      var y := LargestExists(s - {z});
      x := if y < z then z else y;
    }
  }

  /** Every request asks for its locks in ascending order, also the creations
      that need not check. */
  ghost predicate InOrder(s: Server) {
    && (forall r :: r in s.requests ==> Ascending(s.requests[r].todo))
    && (forall h :: h in s.shares ==> h.holder in s.requests && forall u :: u in s.requests[h.holder].todo ==>
      h.task < u)
  }

  predicate AsksInOrder(e: Event) {
    e.BeginInsert? && e.status != Pending ==> Ascending(Dedupe(e.wanted))
  }

  lemma LockKeepsOrder(s: Server, r: RequestId)
    requires InOrder(s) && r in s.requests
    ensures InOrder(Locked(s, r))
  {
    hide Ascending, IsShared;
    var q := s.requests[r];
    if q.todo != [] {
      AscendingTail(q.todo);
      assert forall u :: u in q.todo[1..] ==> u in q.todo;
    }
  }

  lemma EventKeepsOrder(s: Server, e: Event)
    requires InOrder(s) && AsksInOrder(e)
    ensures InOrder(Next(s, e))
  {
    hide Ascending, HasConflict, FreshApproval, TaskStepAllowed, Safety.Next, Inserted, Resolved, TasksOf, Dedupe;
    if e.Lock? && e.r in s.requests {
      LockKeepsOrder(s, e.r);
    }
    hide Locked;
    assert Ascending([]) by {
      NothingAscends();
    }
  }

  lemma NothingAscends()
    ensures Ascending([])
  {
  }

  lemma {:induction false} RunKeepsOrder(s: Server, events: seq<Event>)
    requires InOrder(s) && forall e :: e in events ==> AsksInOrder(e)
    ensures InOrder(Run(s, events))
  {
    hide InOrder, Next, AsksInOrder;
    if events != [] {
      RunKeepsOrder(s, events[..|events| - 1]);
      EventKeepsOrder(Run(s, events[..|events| - 1]), events[|events| - 1]);
    }
  }

  /** All the locks that the request still needs are free. */
  predicate IsFree(s: Server, r: RequestId) {
    r in s.requests && forall t :: t in s.requests[r].todo ==> t !in s.locks && !IsShared(s, t)
  }

  /** The holder of the largest lock needs only larger ones, which are free:
      some request can always run to its end while all the others stand still. */
  lemma SomeRequestIsFree(s: Server) returns (r: RequestId)
    requires LocksOk(s) && InOrder(s) && s.requests.Keys != {}
    ensures IsFree(s, r)
  {
    hide Ascending;
    var shared := set h | h in s.shares :: h.task;
    var held := s.locks.Keys + shared;
    assert forall t :: t in s.locks || IsShared(s, t) ==> t in held;
    if held == {} {
      r :| r in s.requests;
    } else {
      var t := LargestExists(held);
      if t in s.locks {
        r := s.locks[t];
      } else {
        var h :| h in s.shares && h.task == t;
        r := h.holder;
      }
      assert forall u :: u in s.requests[r].todo ==> t < u;
    }
  }

  function OwnEvents(r: RequestId, locks: nat, id: ApprovalId): seq<Event> {
    seq(locks, i => Lock(r)) + [Check(r), Commit(r, id)]
  }

  /** What is left of a free request that has asked for n locks: it may have
      ended at a foreign key to a task that is gone. */
  ghost predicate HasAsked(s: Server, r: RequestId, n: nat, after: Server)
    requires r in s.requests && n <= |s.requests[r].todo|
  {
    && after.board == s.board
    && (r !in after.requests ==> after.requests == s.requests - {r} && MeetsForeignKey(s, r))
    && (r in after.requests ==>
          after.requests == s.requests[r := s.requests[r].(todo := s.requests[r].todo[n..])] && IsFree(after, r))
  }

  /** The request need not check and names a task that is gone. */
  ghost predicate MeetsForeignKey(s: Server, r: RequestId)
    requires r in s.requests
  {
    !s.requests[r].kind.NeedsCheck() && exists t :: t in s.requests[r].todo && !TaskExists(s.board, t)
  }

  lemma OneMoreLock(s: Server, r: RequestId, n: nat, before: Server)
    requires r in s.requests && n < |s.requests[r].todo| && Ascending(s.requests[r].todo)
    requires HasAsked(s, r, n, before)
    ensures HasAsked(s, r, n + 1, Next(before, Lock(r)))
  {
    hide Ascending, IsFree, TaskExists;
    if r in before.requests {
      AscendingRest(s.requests[r].todo, n);
      FreeLock(before, r);
      assert before.requests[r].todo[1..] == s.requests[r].todo[n + 1..];
      assert forall t :: t in s.requests[r].todo[n..] ==> t in s.requests[r].todo;
      hide Locked;
    }
  }

  lemma FreeLock(s: Server, r: RequestId)
    requires IsFree(s, r) && s.requests[r].todo != [] && s.requests[r].todo[0] !in s.requests[r].todo[1..]
    ensures var after := Locked(s, r);
      && after.board == s.board
      && (r !in after.requests ==> after.requests == s.requests - {r} && MeetsForeignKey(s, r))
      && (r in after.requests ==>
            after.requests == s.requests[r := s.requests[r].(todo := s.requests[r].todo[1..])] && IsFree(after, r))
  {
    var todo := s.requests[r].todo;
    assert todo[0] in todo && forall t :: t in todo[1..] ==> t in todo && t != todo[0];
    hide TaskExists;
  }

  lemma AscendingRest(s: seq<TaskId>, n: nat)
    requires Ascending(s) && n < |s|
    ensures s[n..][0] !in s[n..][1..]
  {
  }

  lemma {:induction false} LocksAreTaken(s: Server, r: RequestId, n: nat)
    requires IsFree(s, r) && Ascending(s.requests[r].todo) && n <= |s.requests[r].todo|
    ensures HasAsked(s, r, n, Run(s, seq(n, i => Lock(r))))
  {
    assert r in s.requests;
    hide HasAsked, Ascending, Next, IsFree;
    if n == 0 {
      NothingAsked(s, r);
    } else {
      LocksAreTaken(s, r, n - 1);
      assert seq(n, i => Lock(r))[..n - 1] == seq(n - 1, i => Lock(r));
      OneMoreLock(s, r, n - 1, Run(s, seq(n - 1, i => Lock(r))));
    }
  }

  lemma NothingAsked(s: Server, r: RequestId)
    requires IsFree(s, r)
    ensures HasAsked(s, r, 0, s)
  {
    assert s.requests[r].todo[0..] == s.requests[r].todo;
    assert s.requests == s.requests[r := s.requests[r].(todo := s.requests[r].todo[0..])];
  }

  lemma CheckAndCommitEnd(s: Server, r: RequestId, id: ApprovalId)
    requires r in s.requests ==> s.requests[r].todo == [] && FreshApproval(s, id)
    ensures Run(s, [Check(r), Commit(r, id)]).requests == s.requests - {r}
  {
    hide HasConflict, FreshApproval, Inserted, Resolved;
    var events := [Check(r), Commit(r, id)];
    assert events[..1] == [Check(r)] && events[..1][..0] == [];
    assert Run(s, events[..0]) == s;
    var mid := Next(s, Check(r));
    assert Run(s, events) == Next(mid, Commit(r, id));
    if r in s.requests {
      StillFresh(s, r, id);
      assert mid.requests - {r} == s.requests - {r};
    } else {
      assert s.requests == s.requests - {r};
    }
    if r !in mid.requests {
      assert mid.requests == mid.requests - {r};
    }
  }

  lemma StillFresh(s: Server, r: RequestId, id: ApprovalId)
    requires r in s.requests && FreshApproval(s, id)
    ensures FreshApproval(Checked(s, r), id)
  {
    hide HasConflict;
  }

  /** A free request ends, by answering or by refusing, in one step per lock and two more. */
  lemma FreeRequestEnds(s: Server, r: RequestId, id: ApprovalId)
    requires IsFree(s, r) && Ascending(s.requests[r].todo) && FreshApproval(s, id)
    ensures Run(s, OwnEvents(r, |s.requests[r].todo|, id)).requests == s.requests - {r}
  {
    hide Run, Ascending;
    var n := |s.requests[r].todo|;
    LocksAreTaken(s, r, n);
    var mid := Run(s, seq(n, i => Lock(r)));
    hide IsFree;
    assert mid.requests - {r} == s.requests - {r};
    CheckAndCommitEnd(mid, r, id);
    RunInTwoParts(s, seq(n, i => Lock(r)), [Check(r), Commit(r, id)]);
  }

  /** Nothing in flight is stuck. */
  lemma {:induction false} EveryRequestCanEnd(s: Server) returns (events: seq<Event>)
    requires Invariant(s) && InOrder(s)
    ensures Run(s, events).requests == map[]
    decreases |s.requests|
  {
    if s.requests.Keys == {} {
      events := [];
      assert s.requests == map[];
    } else {
      var r := SomeRequestIsFree(s);
      var id := UnusedApproval(s);
      var first := OwnEvents(r, |s.requests[r].todo|, id);
      FreeRequestEnds(s, r, id);
      assert forall e :: e in first ==> AsksInOrder(e);
      hide Run, Invariant, InOrder, FreshApproval, AsksInOrder;
      RunKeeps(s, first);
      RunKeepsOrder(s, first);
      var rest := EveryRequestCanEnd(Run(s, first));
      events := first + rest;
      RunInTwoParts(s, first, rest);
    }
  }

  /** No run of approval requests deadlocks if every creation that need not
      check names its tasks in ascending order. */
  lemma NoDeadlock(b: Board, events: seq<Event>) returns (more: seq<Event>)
    requires References(b) && OnePending(b) && forall e :: e in events ==> AsksInOrder(e)
    ensures Run(Run(Start(b), events), more).requests == map[]
  {
    hide Run, References, OnePending, AsksInOrder;
    RunKeeps(Start(b), events);
    RunKeepsOrder(Start(b), events);
    more := EveryRequestCanEnd(Run(Start(b), events));
  }

  lemma {:induction false} RunInTwoParts(s: Server, a: seq<Event>, b: seq<Event>)
    ensures Run(s, a + b) == Run(Run(s, a), b)
  {
    hide Next;
    if b == [] {
      assert a + b == a;
    } else {
      RunInTwoParts(s, a, b[..|b| - 1]);
      assert (a + b)[..|a + b| - 1] == a + b[..|b| - 1];
    }
  }

  lemma UnusedApproval(s: Server) returns (id: ApprovalId)
    ensures FreshApproval(s, id)
  {
    var used := s.board.approvals.Keys
      + set r | r in s.requests && s.requests[r].kind.Resolve? :: s.requests[r].kind.approval;
    if used == {} {
      id := 0;
    } else {
      var x := LargestExists(used);
      id := x + 1;
    }
    assert id !in used;
    assert forall r :: r in s.requests && s.requests[r].kind.Resolve? ==> s.requests[r].kind.approval in used;
  }

  // ---- the deadlock that is left -----------------------------------------------------

  /** The next lock of r is held by p. */
  predicate WaitsFor(s: Server, r: RequestId, p: RequestId) {
    && r in s.requests && s.requests[r].todo != []
    && var t := s.requests[r].todo[0];
       && TaskExists(s.board, t)
       && ((t in s.locks && s.locks[t] == p) || (s.requests[r].kind.NeedsCheck() && Share(t, p) in s.shares))
  }

  predicate Deadlocked(s: Server, r: RequestId, p: RequestId) {
    r != p && WaitsFor(s, r, p) && WaitsFor(s, p, r)
  }

  lemma WaitingGoesOn(s: Server, r: RequestId, p: RequestId, q: RequestId)
    requires WaitsFor(s, r, p) && q != r && q != p
    ensures WaitsFor(Finished(s, q), r, p)
    ensures q in s.requests ==> WaitsFor(Locked(s, q), r, p)
  {
  }

  /** A request that waits changes nothing by what it does itself, except to give up. */
  lemma WaitingDoesNothing(s: Server, r: RequestId, p: RequestId, id: ApprovalId)
    requires WaitsFor(s, r, p)
    ensures Next(s, Lock(r)) == s && Next(s, Check(r)) == s && Next(s, Commit(r, id)) == s
  {
    if Share(s.requests[r].todo[0], p) in s.shares {
      assert IsShared(s, s.requests[r].todo[0]);
    }
    hide HasConflict, FreshApproval, Inserted, Resolved;
  }

  lemma OtherBoardKeepsWaiting(s: Server, r: RequestId, p: RequestId, step: Safety.Step)
    requires WaitsFor(s, r, p) && TaskStepAllowed(s, step)
    ensures WaitsFor(s.(board := Safety.Next(s.board, step)), r, p)
  {
    var t := s.requests[r].todo[0];
    if Share(t, p) in s.shares {
      assert IsShared(s, t);
    }
    if !step.Delete? {
      AllowedStepKeepsTasks(s, step);
    }
    hide Safety.Next, IsShared;
    if step.Delete? {
      assert t != step.id;
      DeletionKeepsOthers(s.board, step.id, t);
    }
  }

  lemma DeletionKeepsOthers(b: Board, t: TaskId, u: TaskId)
    requires TaskExists(b, u) && u != t
    ensures TaskExists(Safety.Next(b, Safety.Delete(t)), u)
  {
  }

  /** Nothing but giving up ends it: no event of any request or of the tasks. */
  lemma DeadlockStays(s: Server, r: RequestId, p: RequestId, e: Event)
    requires Deadlocked(s, r, p) && e != Abort(r) && e != Abort(p)
    ensures Deadlocked(Next(s, e), r, p)
  {
    hide WaitsFor, Locked, Checked, Committed, Finished, TaskStepAllowed, Started;
    match e {
      case BeginInsert(q, _, _) => BeginKeepsWaiting(s, r, p, e); BeginKeepsWaiting(s, p, r, e);
      case BeginResolve(q, _, _) => BeginKeepsWaiting(s, r, p, e); BeginKeepsWaiting(s, p, r, e);
      case TaskRequest(step) =>
        if TaskStepAllowed(s, step) {
          OtherBoardKeepsWaiting(s, r, p, step);
          OtherBoardKeepsWaiting(s, p, r, step);
        }
      case Abort(q) =>
        WaitingGoesOn(s, r, p, q);
        WaitingGoesOn(s, p, r, q);
      case Lock(q) => OwnOrOther(s, r, p, e, 0);
      case Check(q) => OwnOrOther(s, r, p, e, 0);
      case Commit(q, id) => OwnOrOther(s, r, p, e, id);
    }
  }

  lemma OwnOrOther(s: Server, r: RequestId, p: RequestId, e: Event, id: ApprovalId)
    requires Deadlocked(s, r, p) && ((e.Lock? || e.Check?) || (e.Commit? && e.id == id))
    ensures Deadlocked(Next(s, e), r, p)
  {
    hide WaitsFor, Locked, Checked, Committed, Finished;
    WaitingDoesNothing(s, r, p, id);
    WaitingDoesNothing(s, p, r, id);
    if e.r != r && e.r != p && e.r in s.requests {
      OtherKeepsWaiting(s, r, p, e);
      OtherKeepsWaiting(s, p, r, e);
    }
  }

  lemma BeginKeepsWaiting(s: Server, r: RequestId, p: RequestId, e: Event)
    requires WaitsFor(s, r, p) && (e.BeginInsert? || e.BeginResolve?)
    ensures WaitsFor(Next(s, e), r, p)
  {
    hide Started, TasksOf, Dedupe, TaskExists;
  }

  lemma OtherKeepsWaiting(s: Server, r: RequestId, p: RequestId, e: Event)
    requires WaitsFor(s, r, p) && (e.Lock? || e.Check? || e.Commit?) && e.r != r && e.r != p && e.r in s.requests
    ensures WaitsFor(Next(s, e), r, p)
  {
    hide HasConflict, FreshApproval;
    WaitingGoesOn(s, r, p, e.r);
    hide Locked;
  }

  lemma {:induction false} DedupeOfDistinct(s: seq<TaskId>)
    requires Distinct(s)
    ensures Dedupe(s) == s
  {
    if s != [] {
      assert s == s[..|s| - 1] + [s[|s| - 1]];
      DedupeOfDistinct(s[..|s| - 1]);
    }
  }

  lemma SortedPair(x: TaskId, y: TaskId)
    requires x < y
    ensures Sorted([x, y]) == [x, y]
  {
    hide Ascending;
    NothingAscends();
    OneAscends(x);
    assert [x, y] == [x] + [y] && [x][..0] == [] && [x][1..] == [];
    assert Sorted([x]) == InsertSorted(x, []) == [x];
    hide Sorted;
    assert InsertSorted(y, [x]) == [x] + InsertSorted(y, []);
    assert Sorted([x, y]) == InsertSorted(y, Sorted([x])) by {
      SortedSnoc([x], y);
    }
  }

  lemma OneAscends(x: TaskId)
    ensures Ascending([x])
  {
  }

  lemma SortedSnoc(s: seq<TaskId>, y: TaskId)
    ensures Sorted(s + [y]) == InsertSorted(y, Sorted(s))
  {
    assert (s + [y])[..|s|] == s;
  }

  lemma RunSnoc(s: Server, events: seq<Event>, e: Event)
    ensures Run(s, events + [e]) == Next(Run(s, events), e)
  {
    hide Next;
    assert (events + [e])[..|events|] == events;
  }

  /** The creation, request 1, has taken the shared locks of its first n tasks. */
  ghost predicate HasShares(s: Server, b: Board, tasks: seq<TaskId>, n: nat)
    requires n <= |tasks|
  {
    && s.board == b && s.locks == map[]
    && s.requests == map[1 := Request(Insert(Approved), tasks, tasks[n..], true)]
    && (forall h :: h in s.shares <==> h.holder == 1 && h.task in tasks[..n])
  }

  lemma OneMoreShare(s: Server, b: Board, tasks: seq<TaskId>, n: nat)
    requires n < |tasks| && HasShares(s, b, tasks, n) && TaskExists(b, tasks[n])
    ensures HasShares(Next(s, Lock(1)), b, tasks, n + 1)
  {
    assert tasks[n..][0] == tasks[n] && tasks[n..][1..] == tasks[n + 1..];
    assert tasks[..n + 1] == tasks[..n] + [tasks[n]];
  }

  lemma ListBegins(b: Board, tasks: seq<TaskId>)
    requires Distinct(tasks)
    ensures HasShares(Next(Start(b), BeginInsert(1, Approved, tasks)), b, tasks, 0)
  {
    DedupeOfDistinct(tasks);
    hide Dedupe, Distinct;
    assert tasks[0..] == tasks;
  }

  lemma {:induction false} SharesAreTaken(b: Board, tasks: seq<TaskId>, n: nat)
    requires Distinct(tasks) && n <= |tasks| && forall t :: t in tasks ==> TaskExists(b, t)
    ensures HasShares(Run(Start(b), [BeginInsert(1, Approved, tasks)] + seq(n, i => Lock(1))), b, tasks, n)
  {
    hide HasShares, Next, Distinct, Run, TaskExists;
    var begin := BeginInsert(1, Approved, tasks);
    if n == 0 {
      ListBegins(b, tasks);
      assert [begin] + seq(0, i => Lock(1)) == [] + [begin];
      RunSnoc(Start(b), [], begin);
      NoEvents(Start(b));
    } else {
      SharesAreTaken(b, tasks, n - 1);
      var before := [begin] + seq(n - 1, i => Lock(1));
      assert [begin] + seq(n, i => Lock(1)) == before + [Lock(1)];
      RunSnoc(Start(b), before, Lock(1));
      OneMoreShare(Run(Start(b), before), b, tasks, n - 1);
    }
  }

  lemma NoEvents(s: Server)
    ensures Run(s, []) == s
  {
  }

  /** A second request asks for a pending approval on the two tasks where the
      list falls, and takes the lock of the smaller one. */
  lemma PendingRequestWaits(s: Server, b: Board, tasks: seq<TaskId>, i: nat)
    requires Distinct(tasks) && i + 1 < |tasks| && tasks[i] > tasks[i + 1]
    requires TaskExists(b, tasks[i]) && TaskExists(b, tasks[i + 1])
    requires HasShares(s, b, tasks, i + 1)
    ensures Deadlocked(Next(Next(s, BeginInsert(2, Pending, [tasks[i + 1], tasks[i]])), Lock(2)), 1, 2)
  {
    var x, y := tasks[i + 1], tasks[i];
    SortedPair(x, y);
    DedupeOfDistinct([x, y]);
    hide Dedupe, Sorted, TaskExists, Locked;
    var s2 := Next(s, BeginInsert(2, Pending, [x, y]));
    var q := Request(Insert(Pending), [x, y], [x, y], false);
    assert s2 == s.(requests := s.requests[2 := q]);
    assert tasks[..i + 1][i] == y && x !in tasks[..i + 1];
    assert tasks[i + 1..][0] == x;
    SmallerIsTaken(s2, x, y);
  }

  lemma SmallerIsTaken(s: Server, x: TaskId, y: TaskId)
    requires 2 in s.requests && s.requests[2] == Request(Insert(Pending), [x, y], [x, y], false)
    requires 1 in s.requests && s.requests[1].todo != [] && s.requests[1].todo[0] == x
    requires TaskExists(s.board, x) && TaskExists(s.board, y) && x !in s.locks && !IsShared(s, x)
      && Share(y, 1) in s.shares
    ensures Deadlocked(Next(s, Lock(2)), 1, 2)
  {
    hide TaskExists;
    assert [x, y][1..] == [y];
  }

  /** The order is needed: a creation that need not check and whose list falls
      somewhere deadlocks with a request for a pending approval on the two
      tasks where it falls. */
  lemma FallingListDeadlocks(b: Board, tasks: seq<TaskId>, i: nat) returns (events: seq<Event>)
    requires Distinct(tasks) && i + 1 < |tasks| && tasks[i] > tasks[i + 1]
    requires forall t :: t in tasks ==> TaskExists(b, t)
    ensures Deadlocked(Run(Start(b), events), 1, 2)
    ensures forall e :: e in events && e.BeginInsert? && e.status != Pending ==> e.wanted == tasks
  {
    hide Next, HasShares, Deadlocked, Distinct, Run, TaskExists;
    var first := [BeginInsert(1, Approved, tasks)] + seq(i + 1, k => Lock(1));
    SharesAreTaken(b, tasks, i + 1);
    assert tasks[i] in tasks && tasks[i + 1] in tasks;
    PendingRequestWaits(Run(Start(b), first), b, tasks, i);
    var second := BeginInsert(2, Pending, [tasks[i + 1], tasks[i]]);
    events := first + [second] + [Lock(2)];
    RunSnoc(Start(b), first, second);
    RunSnoc(Start(b), first + [second], Lock(2));
  }

  lemma NotAscendingFalls(tasks: seq<TaskId>) returns (i: nat)
    requires Distinct(tasks) && !Ascending(tasks)
    ensures i + 1 < |tasks| && tasks[i] > tasks[i + 1]
  {
    if k :| 0 <= k < |tasks| - 1 && tasks[k] > tasks[k + 1] {
      i := k;
    } else {
      forall a, c | 0 <= a < c < |tasks| ensures tasks[a] < tasks[c] {
        Rises(tasks, a, c);
      }
      assert false;
    }
  }

  lemma {:induction false} Rises(tasks: seq<TaskId>, a: nat, c: nat)
    requires Distinct(tasks) && a < c < |tasks| && forall k :: 0 <= k < |tasks| - 1 ==> tasks[k] <= tasks[k + 1]
    ensures tasks[a] < tasks[c]
    decreases c
  {
    assert tasks[c - 1] <= tasks[c - 1 + 1];
    if a < c - 1 {
      Rises(tasks, a, c - 1);
    }
  }

  lemma InOrderNeverDeadlocks(s: Server, r: RequestId, p: RequestId)
    requires LocksOk(s) && InOrder(s)
    ensures !Deadlocked(s, r, p)
  {
    hide Ascending;
    if Deadlocked(s, r, p) {
      var t, u := s.requests[r].todo[0], s.requests[p].todo[0];
      assert t in s.requests[r].todo && u in s.requests[p].todo;
      HolderNeedsLarger(s, r, p);
      HolderNeedsLarger(s, p, r);
      assert false;
    }
  }

  lemma HolderNeedsLarger(s: Server, r: RequestId, p: RequestId)
    requires LocksOk(s) && InOrder(s) && WaitsFor(s, r, p)
    ensures p in s.requests && forall u :: u in s.requests[p].todo ==> s.requests[r].todo[0] < u
  {
    hide Ascending;
  }

  /** The creations of the run that need not check all name these tasks. */
  ghost predicate OnlyList(events: seq<Event>, tasks: seq<TaskId>) {
    forall e :: e in events && e.BeginInsert? && e.status != Pending ==> e.wanted == tasks
  }

  /** Exactly when the list of a creation that need not check is safe: no run in
      which such creations name these tasks deadlocks two requests if and only
      if the list ascends. */
  lemma DeadlockIff(b: Board, tasks: seq<TaskId>)
    requires References(b) && OnePending(b) && Distinct(tasks) && forall t :: t in tasks ==> TaskExists(b, t)
    ensures Ascending(tasks) <==>
      forall events, r, p :: OnlyList(events, tasks) ==> !Deadlocked(Run(Start(b), events), r, p)
  {
    hide References, OnePending, Run, Deadlocked, RequestOk;
    if Ascending(tasks) {
      DedupeOfDistinct(tasks);
      forall events, r, p | OnlyList(events, tasks) ensures !Deadlocked(Run(Start(b), events), r, p) {
        RunKeeps(Start(b), events);
        RunKeepsOrder(Start(b), events);
        InOrderNeverDeadlocks(Run(Start(b), events), r, p);
      }
    } else {
      var i := NotAscendingFalls(tasks);
      var events := FallingListDeadlocks(b, tasks, i);
      assert OnlyList(events, tasks) && Deadlocked(Run(Start(b), events), 1, 2);
    }
  }
}
