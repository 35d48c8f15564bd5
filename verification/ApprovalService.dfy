/** The approval endpoints (backend/app/api/approvals.py) over tables that are
    changed in place, one request at a time. */
module ApprovalService {
  import opened Prelude
  import opened BoardModel
  import opened TaskRules
  import opened ApprovalRules
  import TaskService
  import Safety = TaskSafety

  datatype ApprovalError =
    | NotFound
    | Conflicts(byTask: map<TaskId, ApprovalId>)
    | UnknownTaskId

  /** The rows one conflict query returns for a task: pending approvals linked
      to it, or pending approvals without links whose primary task it is. */
  predicate Matches(b: Board, a: ApprovalId, exclude: Option<ApprovalId>, t: TaskId, linked: bool) {
    && a in b.approvals && b.approvals[a].status == Pending && exclude != Some(a)
    && if linked then Link(a, t) in b.links else b.approvals[a].primary == Some(t) && !HasLink(b.links, a)
  }

  /** The oldest such row among the first n approvals. */
  function Oldest(b: Board, order: seq<ApprovalId>, exclude: Option<ApprovalId>, t: TaskId, linked: bool,
      n: nat): Option<ApprovalId>
    requires n <= |order|
  {
    if n == 0 then None
    else
      var older := Oldest(b, order, exclude, t, linked, n - 1);
      if older.None? && Matches(b, order[n - 1], exclude, t, linked) then Some(order[n - 1]) else older
  }

  /** A link wins over a row without links. */
  function FirstConflict(b: Board, order: seq<ApprovalId>, exclude: Option<ApprovalId>, t: TaskId): Option<ApprovalId> {
    var linked := Oldest(b, order, exclude, t, true, |order|);
    if linked.Some? then linked else Oldest(b, order, exclude, t, false, |order|)
  }

  predicate OtherPending(b: Board, exclude: Option<ApprovalId>, t: TaskId) {
    exists a: ApprovalId :: a in b.approvals && PendingOn(b, a, t) && exclude != Some(a)
  }

  lemma {:induction false} OldestExists(b: Board, order: seq<ApprovalId>, exclude: Option<ApprovalId>,
      t: TaskId, linked: bool, n: nat)
    requires n <= |order|
    ensures var o := Oldest(b, order, exclude, t, linked, n);
      && (o.Some? <==> exists i :: 0 <= i < n && Matches(b, order[i], exclude, t, linked))
      && (o.Some? ==> Matches(b, o.value, exclude, t, linked))
      && (o.Some? ==> IsFirst(b, order[..n], exclude, t, linked, o.value))
  {
    hide Matches;
    if n > 0 {
      OldestExists(b, order, exclude, t, linked, n - 1);
      assert order[..n] == order[..n - 1] + [order[n - 1]];
      FirstSnoc(b, order[..n - 1], exclude, t, linked, order[n - 1]);
    }
  }

  /** No approval before a matches. */
  ghost predicate IsFirst(b: Board, order: seq<ApprovalId>, exclude: Option<ApprovalId>, t: TaskId, linked: bool,
      a: ApprovalId)
  {
    exists i :: 0 <= i < |order| && order[i] == a
                && forall j :: 0 <= j < i ==> !Matches(b, order[j], exclude, t, linked)
  }

  lemma FirstSnoc(b: Board, front: seq<ApprovalId>, exclude: Option<ApprovalId>, t: TaskId, linked: bool,
      last: ApprovalId)
    ensures forall a :: IsFirst(b, front, exclude, t, linked, a) ==> IsFirst(b, front + [last], exclude, t, linked, a)
    ensures (forall i :: 0 <= i < |front| ==> !Matches(b, front[i], exclude, t, linked)) ==>
      IsFirst(b, front + [last], exclude, t, linked, last)
  {
    hide Matches;
    forall a | IsFirst(b, front, exclude, t, linked, a) ensures IsFirst(b, front + [last], exclude, t, linked, a) {
      var i :| 0 <= i < |front| && front[i] == a
               && forall j :: 0 <= j < i ==> !Matches(b, front[j], exclude, t, linked);
      assert (front + [last])[i] == a && forall j :: 0 <= j < i ==> (front + [last])[j] == front[j];
    }
    assert (front + [last])[|front|] == last;
  }

  /** A task is named as a conflict if and only if another pending approval
      concerns it; a link comes first, then the age of the approval. */
  lemma ConflictIffPending(b: Board, order: seq<ApprovalId>, exclude: Option<ApprovalId>, t: TaskId)
    requires forall a :: a in order <==> a in b.approvals
    ensures FirstConflict(b, order, exclude, t).Some? <==> OtherPending(b, exclude, t)
    ensures FirstConflict(b, order, exclude, t).Some? ==>
      var a := FirstConflict(b, order, exclude, t).value;
      && PendingOn(b, a, t)
      && (IsFirst(b, order, exclude, t, true, a)
          || (IsFirst(b, order, exclude, t, false, a) && forall c :: c in order ==> !Matches(b, c, exclude, t, true)))
  {
    assert order[..|order|] == order;
    OldestExists(b, order, exclude, t, true, |order|);
    OldestExists(b, order, exclude, t, false, |order|);
    if OtherPending(b, exclude, t) {
      var a: ApprovalId :| a in b.approvals && PendingOn(b, a, t) && exclude != Some(a);
      assert a in order;
      var i :| 0 <= i < |order| && order[i] == a;
      assert Matches(b, order[i], exclude, t, true) || Matches(b, order[i], exclude, t, false);
    }
  }

  lemma NoConflictMeansNone(b: Board, order: seq<ApprovalId>, exclude: Option<ApprovalId>, tasks: seq<TaskId>)
    requires forall a :: a in order <==> a in b.approvals
    ensures HasConflict(b, tasks, exclude) <==> exists t :: t in tasks && FirstConflict(b, order, exclude, t).Some?
  {
    hide FirstConflict, PendingOn;
    forall t ensures FirstConflict(b, order, exclude, t).Some? <==> OtherPending(b, exclude, t) {
      ConflictIffPending(b, order, exclude, t);
    }
  }

  /** The new approval names the given tasks, the first of them as its primary one
      and oldest link; everything else is as it was. */
  ghost predicate IsAdded(before: Board, after: Board, id: ApprovalId, status: ApprovalStatus, tasks: seq<TaskId>) {
    && after.approvals.Keys == before.approvals.Keys + {id}
    && after.approvals[id].status == status
    && after.approvals[id].primary == (if tasks == [] then None else Some(tasks[0]))
    && (tasks != [] ==> IsOldestLink(after.links, id, tasks[0]))
    && (forall l :: l in after.links <==> l in before.links || (l.approval == id && l.task in tasks))
    && (forall c :: c in before.approvals && c != id ==> after.approvals[c] == before.approvals[c])
    && after.tasks == before.tasks && after.deps == before.deps && after.flags == before.flags
    && after.foreign == before.foreign
  }

  lemma {:induction false} DedupeKeepsFirst(s: seq<TaskId>)
    ensures s == [] <==> Dedupe(s) == []
    ensures s != [] ==> Dedupe(s)[0] == s[0]
  {
    if |s| > 1 {
      DedupeKeepsFirst(s[..|s| - 1]);
    }
  }

  lemma {:induction false} FirstLink(a: ApprovalId, tasks: seq<TaskId>)
    requires tasks != []
    ensures |LinksTo(a, tasks)| == |tasks| && LinksTo(a, tasks)[0] == Link(a, tasks[0])
  {
    if |tasks| > 1 {
      FirstLink(a, tasks[..|tasks| - 1]);
    }
  }

  /** The explicit ids come first, then those of the payload. */
  lemma MergedTasks(explicit: seq<TaskId>, inPayload: seq<TaskId>)
    ensures SameTasks(Dedupe(explicit + Dedupe(inPayload)), explicit + inPayload)
  {
    var listed := explicit + Dedupe(inPayload);
    DedupeKeepsFirst(listed);
    DedupeKeepsFirst(inPayload);
    Safety.DedupeHolds(listed);
    Safety.DedupeHolds(inPayload);
    hide Dedupe;
  }

  ghost predicate SameTasks(tasks: seq<TaskId>, all: seq<TaskId>) {
    && (forall t :: t in tasks <==> t in all)
    && (tasks == [] <==> all == [])
    && (tasks != [] ==> tasks[0] == all[0])
  }

  lemma InsertedIsAdded(b: Board, id: ApprovalId, status: ApprovalStatus, tasks: seq<TaskId>, all: seq<TaskId>)
    requires References(b) && id !in b.approvals && SameTasks(tasks, all)
    ensures IsAdded(b, Inserted(b, id, status, tasks), id, status, all)
  {
    var after := Inserted(b, id, status, tasks);
    assert after.links == WithoutLinks(b.links, id) + LinksTo(id, tasks);
    LinksAre(b, id, tasks, all);
    hide References, IsOldestLink, LinksTo, WithoutLinks;
  }

  lemma LinksAre(b: Board, id: ApprovalId, tasks: seq<TaskId>, all: seq<TaskId>)
    requires References(b) && id !in b.approvals && SameTasks(tasks, all)
    ensures var links := WithoutLinks(b.links, id) + LinksTo(id, tasks);
      && (forall l :: l in links <==> l in b.links || (l.approval == id && l.task in all))
      && (all != [] ==> IsOldestLink(links, id, all[0]))
  {
    assert forall l :: l in b.links ==> l.approval != id;
    hide References, IsOldestLink;
    if tasks != [] {
      FirstLink(id, tasks);
      OldestBehindOthers(WithoutLinks(b.links, id), LinksTo(id, tasks), id, tasks[0]);
    }
  }

  lemma OldestBehindOthers(others: seq<Link>, links: seq<Link>, a: ApprovalId, t: TaskId)
    requires forall l :: l in others ==> l.approval != a
    requires links != [] && links[0] == Link(a, t)
    ensures IsOldestLink(others + links, a, t)
  {
    var all := others + links;
    assert all[|others|] == Link(a, t);
    assert forall j :: 0 <= j < |others| ==> all[j] in others;
  }

  class ApprovalStore {
    var board: Board
    var order: seq<ApprovalId>  // the approvals by creation time, oldest first

    ghost predicate Valid()
      reads this
    {
      && Distinct(order) && (forall a :: a in order <==> a in board.approvals)
      && References(board) && OnePending(board)
    }

    constructor (b: Board, order: seq<ApprovalId>)
      requires Distinct(order) && (forall a :: a in order <==> a in b.approvals)
      requires References(b) && OnePending(b)
      ensures Valid() && board == b && this.order == order
    {
      board, this.order := b, order;
    }

    /** `conflicts.setdefault` over the rows of both queries, oldest approval first. */
    method PendingConflicts(tasks: seq<TaskId>, exclude: Option<ApprovalId>)
      returns (conflicts: map<TaskId, ApprovalId>)
      requires Valid()
      ensures forall t :: t in conflicts <==> t in tasks && FirstConflict(board, order, exclude, t).Some?
      ensures forall t :: t in conflicts ==> conflicts[t] == FirstConflict(board, order, exclude, t).value
      ensures conflicts == map[] <==> !HasConflict(board, tasks, exclude)
    {
      hide References, OnePending, HasConflict, Matches;
      conflicts := map[];
      for i := 0 to |order|
        invariant forall t :: t in conflicts <==> t in tasks && Oldest(board, order, exclude, t, true, i).Some?
        invariant forall t :: t in conflicts ==> conflicts[t] == Oldest(board, order, exclude, t, true, i).value
      {
        conflicts := AddLinked(conflicts, tasks, order[i], exclude);
      }
      for i := 0 to |order|
        invariant forall t :: t in conflicts <==>
          t in tasks && (Oldest(board, order, exclude, t, true, |order|).Some? || Oldest(board, order, exclude, t,
            false, i).Some?)
        invariant forall t :: t in conflicts ==>
          conflicts[t] == var linked := Oldest(board, order, exclude, t, true, |order|);
            (if linked.Some? then linked else Oldest(board, order, exclude, t, false, i)).value
      {
        conflicts := AddUnlinked(conflicts, tasks, order[i], exclude);
      }
      NoConflictMeansNone(board, order, exclude, tasks);
      if conflicts != map[] {
        var t :| t in conflicts;
      }
    }

    /** The rows that the join of one approval with its links yields. */
    method AddLinked(before: map<TaskId, ApprovalId>, tasks: seq<TaskId>, a: ApprovalId, exclude: Option<ApprovalId>)
      returns (conflicts: map<TaskId, ApprovalId>)
      requires a in board.approvals
      ensures forall t :: t in conflicts <==> t in before || (t in tasks && Matches(board, a, exclude, t, true))
      ensures forall t :: t in conflicts ==> conflicts[t] == if t in before then before[t] else a
    {
      conflicts := before;
      if board.approvals[a].status == Pending && exclude != Some(a) {
        var linked := LinkedTasks(board.links, a);
        LinkedTasksAre(board.links, a);
        for i := 0 to |linked|
          invariant forall t :: t in conflicts <==> t in before || (t in tasks && t in linked[..i])
          invariant forall t :: t in conflicts ==> conflicts[t] == if t in before then before[t] else a
        {
          assert linked[..i + 1] == linked[..i] + [linked[i]];
          if linked[i] in tasks && linked[i] !in conflicts {
            conflicts := conflicts[linked[i] := a];
          }
        }
        assert linked[..|linked|] == linked;
      }
    }

    /** The row of one approval without links. */
    method AddUnlinked(before: map<TaskId, ApprovalId>, tasks: seq<TaskId>, a: ApprovalId, exclude: Option<ApprovalId>)
      returns (conflicts: map<TaskId, ApprovalId>)
      requires a in board.approvals
      ensures forall t :: t in conflicts <==> t in before || (t in tasks && Matches(board, a, exclude, t, false))
      ensures forall t :: t in conflicts ==> conflicts[t] == if t in before then before[t] else a
    {
      conflicts := before;
      var row := board.approvals[a];
      if row.status == Pending && exclude != Some(a) && row.primary.Some? && !HasLink(board.links, a) {
        var t := row.primary.value;
        if t in tasks && t !in conflicts {
          conflicts := conflicts[t := a];
        }
      }
    }

    method EnsureNoPendingConflicts(taskIds: seq<TaskId>, exclude: Option<ApprovalId>)
      returns (error: Option<ApprovalError>)
      requires Valid()
      ensures error.None? <==> !HasConflict(board, taskIds, exclude)
      ensures error.Some? ==> error.value.Conflicts?
      ensures error.Some? ==> forall t :: t in error.value.byTask <==> t in taskIds && OtherPending(board, exclude, t)
    {
      if taskIds == [] {
        return None;
      }
      var conflicts := PendingConflicts(taskIds, exclude);
      forall t ensures FirstConflict(board, order, exclude, t).Some? <==> OtherPending(board, exclude, t) {
        ConflictIffPending(board, order, exclude, t);
      }
      hide FirstConflict, OtherPending, HasConflict;
      if conflicts != map[] {
        return Some(Conflicts(conflicts));
      }
      return None;
    }

    /** Creates an approval for the explicit and the payload's task ids, unless
        it would be a second pending one, or names a task that does not exist. */
    method CreateApproval(id: ApprovalId, status: ApprovalStatus, explicit: seq<TaskId>, inPayload: seq<TaskId>)
      returns (error: Option<ApprovalError>)
      requires Valid() && id !in board.approvals
      modifies this
      ensures Valid()
      ensures var tasks := Dedupe(explicit + Dedupe(inPayload));
        && (error.Some? && error.value.Conflicts? <==> status == Pending && HasConflict(old(board), tasks, None))
        && (error.None? ==> board == Inserted(old(board), id, status, tasks) && order == old(order) + [id])
        && (error.None? ==> IsAdded(old(board), board, id, status, explicit + inPayload))
        && (error.None? <==> !(status == Pending && HasConflict(old(board), tasks, None))
                             && forall t :: t in explicit + inPayload ==> TaskExists(old(board), t))
        && (error == Some(UnknownTaskId) ==> exists t :: t in tasks && !TaskExists(old(board), t))
        && (error.Some? ==> board == old(board) && order == old(order) && error != Some(NotFound))
    {
      hide HasConflict, References, OnePending, IsAdded;
      error := None;
      var extracted := TaskService.Normalize(inPayload);
      var tasks := TaskService.Normalize(explicit + extracted);
      MergedTasks(explicit, inPayload);
      if status == Pending {
        error := EnsureNoPendingConflicts(tasks, None);
        if error.Some? {
          return;
        }
      }
      if exists t :: t in tasks && !TaskExists(board, t) {
        return Some(UnknownTaskId);
      }
      hide Inserted, IsAdded;
      InsertedIsAdded(board, id, status, tasks, explicit + inPayload);
      InsertRows(id, status, tasks);
    }

    method InsertRows(id: ApprovalId, status: ApprovalStatus, tasks: seq<TaskId>)
      requires Valid() && id !in board.approvals
      requires forall t :: t in tasks ==> TaskExists(board, t)
      requires status == Pending ==> !HasConflict(board, tasks, None)
      modifies this
      ensures Valid()
      ensures board == Inserted(old(board), id, status, tasks) && order == old(order) + [id]
    {
      hide HasConflict, References, OnePending, PendingOn;
      InsertionConcerns(board, id, status, tasks);
      InsertionKeepsOnePending(board, id, status, tasks);
      assert id !in order;
      board := Inserted(board, id, status, tasks);
      order := order + [id];
    }

    /** Sets the status; going back to pending is checked like a new approval. */
    method UpdateApproval(a: ApprovalId, target: ApprovalStatus) returns (error: Option<ApprovalError>)
      requires Valid()
      modifies this
      ensures Valid() && order == old(order)
      ensures error == Some(NotFound) <==> a !in old(board).approvals
      ensures a in old(board).approvals ==>
        var back := target == Pending && old(board).approvals[a].status != Pending;
        && (error.Some? <==> back && HasConflict(old(board), TasksOf(old(board), a), Some(a)))
        && (error.None? ==> board == Resolved(old(board), a, target))
        && (error.None? ==>
              && a in board.approvals && board.approvals[a].status == target
              && board.approvals[a].primary == old(board).approvals[a].primary
              && board.approvals.Keys == old(board).approvals.Keys
              && (forall c :: c in board.approvals && c != a ==> board.approvals[c] == old(board).approvals[c])
              && board.links == old(board).links && board.tasks == old(board).tasks && board.deps == old(board).deps
              && board.flags == old(board).flags && board.foreign == old(board).foreign)
      ensures error.Some? ==> board == old(board)
    {
      hide HasConflict, References, OnePending;
      if a !in board.approvals {
        return Some(NotFound);
      }
      if target == Pending && board.approvals[a].status != Pending {
        error := EnsureNoPendingConflicts(TasksOf(board, a), Some(a));
        if error.Some? {
          return;
        }
        NothingElsePending(board, a);
      } else if target == Pending {
        StillTheOnlyOne(board, a);
      }
      error := None;
      ResolutionKeepsOnePending(board, a, target);
      board := Resolved(board, a, target);
    }
  }

  lemma NothingElsePending(b: Board, a: ApprovalId)
    requires a in b.approvals && !HasConflict(b, TasksOf(b, a), Some(a))
    ensures forall c, t :: PendingOn(b, c, t) && Concerns(b.links, a, b.approvals[a], t) ==> c == a
  {
    TasksOfAre(b, a);
    hide Concerns;
  }

  lemma StillTheOnlyOne(b: Board, a: ApprovalId)
    requires OnePending(b) && a in b.approvals && b.approvals[a].status == Pending
    ensures forall c, t :: PendingOn(b, c, t) && Concerns(b.links, a, b.approvals[a], t) ==> c == a
  {
    hide Concerns;
    assert forall t :: Concerns(b.links, a, b.approvals[a], t) ==> PendingOn(b, a, t);
  }
}
