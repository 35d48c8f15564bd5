/** Deleting a task together with every row that names it
    (`delete_task_and_related_records` in backend/app/api/tasks.py). */
module TaskDeletion {
  import opened Prelude
  import opened BoardModel
  import opened TaskRules
  import opened ApprovalRules
  import TaskService

  /** After a deletion no row of the board names the task. */
  lemma DeletionForgetsTask(b: Board, t: TaskId)
    ensures var after := DeleteTask(b, t);
      && !TaskExists(after, t)
      && (forall l :: l in after.links <==> l in b.links && l.task != t)
      && (forall u :: u in after.deps ==> u != t && t !in after.deps[u])
      && (forall a :: a in after.approvals ==> a in b.approvals && after.approvals[a].primary != Some(t))
      && after.tasks == b.tasks - {t} && after.foreign == b.foreign - {t} && after.flags == b.flags
      && after.deps.Keys == b.deps.Keys - {t}
      && (forall u, d :: u in after.deps ==> (d in after.deps[u] <==> d in b.deps[u] && d != t))
      && (forall u :: u in after.deps && t !in b.deps[u] ==> after.deps[u] == b.deps[u])
  {
    var after := DeleteTask(b, t);
    forall a | a in b.approvals && LinkedTasks(after.links, a) != []
      ensures LinkedTasks(after.links, a)[0] != t
    {
      RemainingLinks(b, t, a);
    }
    forall u | u in after.deps && t !in b.deps[u] ensures after.deps[u] == b.deps[u] {
      FilterAll(d => d != t, b.deps[u]);
    }
    hide LinkedTasks;
  }

  /** An approval goes away if and only if the task was its primary one and no
      other link is left; a surviving one moves to the task it has been linked
      to longest, and the others stay as they were. */
  lemma SurvivorsMove(b: Board, t: TaskId, a: ApprovalId)
    requires a in b.approvals
    ensures var after, row := DeleteTask(b, t), b.approvals[a];
      && (a !in after.approvals <==>
            row.primary == Some(t) && forall l :: l in b.links && l.approval == a ==> l.task == t)
      && (a in after.approvals && row.primary == Some(t) ==>
            exists u :: after.approvals[a] == row.(primary := Some(u)) && IsOldestLink(after.links, a, u))
      && (row.primary != Some(t) ==> after.approvals[a] == row)
  {
    RemainingLinks(b, t, a);
    hide LinkedTasks, IsOldestLink;
  }

  lemma RemainingLinks(b: Board, t: TaskId, a: ApprovalId)
    ensures var linked := LinkedTasks(DeleteTask(b, t).links, a);
      && (linked == [] <==> forall l :: l in b.links && l.approval == a ==> l.task == t)
      && (linked != [] ==> linked[0] != t && IsOldestLink(DeleteTask(b, t).links, a, linked[0]))
  {
    var after := DeleteTask(b, t);
    var linked := LinkedTasks(after.links, a);
    LinkedTasksAre(after.links, a);
    if linked != [] {
      assert linked[0] in linked && Link(a, linked[0]) in after.links;
    }
    forall l | l in b.links && l.approval == a && l.task != t ensures l.task in linked {
      assert l == Link(a, l.task) && l in after.links;
    }
  }

  /** A row of another table, which may name a task. */
  datatype Reference = Reference(id: nat, task: Option<TaskId>)

  ghost predicate Names(rows: seq<Reference>, t: TaskId) {
    exists r :: r in rows && r.task == Some(t)
  }

  class TaskTables {
    const service: TaskService.BoardService
    var activity: seq<Reference>
    var fingerprints: seq<Reference>
    var tagAssignments: seq<Reference>
    var customValues: seq<Reference>

    constructor (service: TaskService.BoardService)
      ensures this.service == service
    {
      this.service := service;
      activity, fingerprints, tagAssignments, customValues := [], [], [], [];
    }

    method DeleteTaskAndRelatedRecords(t: TaskId)
      requires service.Idle() && t in service.board.tasks
      modifies this, service
      ensures service.Idle() && service.board == DeleteTask(old(service.board), t)
      ensures !Names(activity, t) && !Names(fingerprints, t) && !Names(tagAssignments, t) && !Names(customValues, t)
      ensures forall r: Reference :: r.task != Some(t) ==>
        && (r in activity <==> r in old(activity)) && (r in fingerprints <==> r in old(fingerprints))
        && (r in tagAssignments <==> r in old(tagAssignments)) && (r in customValues <==> r in old(customValues))
    {
      hide DeleteTask;
      activity := DeleteWhere(activity, t);
      fingerprints := DeleteWhere(fingerprints, t);
      service.DeleteTaskRows(t);
      tagAssignments := DeleteWhere(tagAssignments, t);
      customValues := DeleteWhere(customValues, t);
    }

    method DeleteWhere(rows: seq<Reference>, t: TaskId) returns (left: seq<Reference>)
      ensures forall r :: r in left <==> r in rows && r.task != Some(t)
    {
      left := [];
      for i := 0 to |rows|
        invariant forall r :: r in left <==> r in rows[..i] && r.task != Some(t)
      {
        assert rows[..i + 1] == rows[..i] + [rows[i]];
        if rows[i].task != Some(t) {
          left := left + [rows[i]];
        }
      }
      assert rows[..|rows|] == rows;
    }
  }
}
