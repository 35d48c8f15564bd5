/** What the task endpoints answer: one task at a time, or a page of tasks
    whose rows are loaded together (backend/app/api/tasks.py). */
module TaskReads {
  import opened Prelude
  import opened BoardModel
  import CustomFields

  type TagId = nat

  datatype TagAssignment = TagAssignment(task: TaskId, tag: TagId)

  datatype TaskRead = TaskRead(
    row: TaskRow,
    dependsOn: seq<TaskId>,
    tags: seq<TagId>,
    blockedBy: seq<TaskId>,
    isBlocked: bool,
    fields: CustomFields.Fields)

  function TagsOf(assignments: seq<TagAssignment>, t: TaskId): seq<TagId> {
    if assignments == [] then []
    else
      var front, last := TagsOf(assignments[..|assignments| - 1], t), assignments[|assignments| - 1];
      if last.task == t then front + [last.tag] else front
  }

  /** A done task is never shown as blocked. */
  function ShownBlockers(b: Board, t: TaskId): seq<TaskId>
    requires t in b.tasks
  {
    if b.tasks[t].status == Finished then [] else BlockedBy(b.tasks, DepsOf(b.deps, t))
  }

  /** The answer for a task, in terms of the tables alone. */
  ghost function ReadOf(b: Board, assignments: seq<TagAssignment>, fields: CustomFields.Fields, t: TaskId): TaskRead
    requires t in b.tasks
  {
    TaskRead(b.tasks[t], DepsOf(b.deps, t), TagsOf(assignments, t),
             ShownBlockers(b, t), ShownBlockers(b, t) != [], fields)
  }

  /** The flag says what the rules of TaskRules.dfy call blocked. */
  lemma ShownAsBlockedIff(b: Board, t: TaskId)
    requires t in b.tasks
    ensures ShownBlockers(b, t) != [] <==> b.tasks[t].status != Finished && IsBlocked(b, t)
  {
    var blocked := BlockedBy(b.tasks, DepsOf(b.deps, t));
    if blocked != [] {
      assert blocked[0] in blocked;
    }
  }

  /** The answer, field by field: the row and its dependencies as stored, and as
      blockers the undone ones, none for a done task. */
  lemma ReadMeans(b: Board, assignments: seq<TagAssignment>, fields: CustomFields.Fields, t: TaskId)
    requires t in b.tasks
    ensures var r := ReadOf(b, assignments, fields, t);
      && r.row == b.tasks[t] && r.fields == fields
      && r.dependsOn == (if t in b.deps then b.deps[t] else [])
      && (forall d :: d in r.blockedBy <==>
            b.tasks[t].status != Finished && d in r.dependsOn && (d !in b.tasks || b.tasks[d].status != Finished))
      && (r.isBlocked <==> exists d :: d in r.blockedBy)
      && (forall tag :: tag in r.tags <==> TagAssignment(t, tag) in assignments)
  {
    ShownAsBlockedIff(b, t);
    TagsAre(assignments, t);
    var blocked := ShownBlockers(b, t);
    assert blocked != [] ==> blocked[0] in blocked;
  }

  /** The tags of a task come in the order of its assignments, each with its place. */
  lemma {:induction false} TagPlaces(assignments: seq<TagAssignment>, t: TaskId) returns (places: seq<nat>)
    ensures ArePlaces(assignments, t, TagsOf(assignments, t), places)
  {
    hide ArePlaces;
    if assignments == [] {
      places := [];
      assert ArePlaces([], t, [], []) by {
        NoPlaces(t);
      }
    } else {
      var n := |assignments| - 1;
      var front := TagPlaces(assignments[..n], t);
      places := if assignments[n].task == t then front + [n] else front;
      assert assignments == assignments[..n] + [assignments[n]];
      OneMorePlace(assignments[..n], assignments[n], t, TagsOf(assignments[..n], t), front);
    }
  }

  ghost predicate ArePlaces(assignments: seq<TagAssignment>, t: TaskId, tags: seq<TagId>, places: seq<nat>) {
    && |places| == |tags|
    && (forall k :: 0 <= k < |places| ==>
          places[k] < |assignments| && assignments[places[k]] == TagAssignment(t, tags[k]))
    && forall k, l :: 0 <= k < l < |places| ==> places[k] < places[l]
  }

  lemma NoPlaces(t: TaskId)
    ensures ArePlaces([], t, [], [])
  {
  }

  lemma OneMorePlace(front: seq<TagAssignment>, last: TagAssignment, t: TaskId, tags: seq<TagId>, places: seq<nat>)
    requires ArePlaces(front, t, tags, places)
    ensures ArePlaces(front + [last], t, tags, places)
    ensures last.task == t ==> ArePlaces(front + [last], t, tags + [last.tag], places + [|front|])
  {
  }

  lemma {:induction false} TagsAre(assignments: seq<TagAssignment>, t: TaskId)
    ensures forall tag :: tag in TagsOf(assignments, t) <==> TagAssignment(t, tag) in assignments
  {
    if assignments != [] {
      var front, last := assignments[..|assignments| - 1], assignments[|assignments| - 1];
      TagsAre(front, t);
      assert assignments == front + [last];
      assert last == TagAssignment(last.task, last.tag);
    }
  }

  class TaskReader {
    const board: Board
    const assignments: seq<TagAssignment>
    const store: CustomFields.FieldStore

    constructor (board: Board, assignments: seq<TagAssignment>, store: CustomFields.FieldStore)
      ensures this.board == board && this.assignments == assignments && this.store == store
    {
      this.board, this.assignments, this.store := board, assignments, store;
    }

    /** The statuses of the dependencies that still exist. */
    method DependencyStatus(ids: seq<TaskId>) returns (statuses: map<TaskId, Status>)
      ensures forall d :: d in statuses <==> d in ids && d in board.tasks
      ensures forall d :: d in statuses ==> statuses[d] == board.tasks[d].status
    {
      statuses := map[];
      for i := 0 to |ids|
        invariant forall d :: d in statuses <==> d in ids[..i] && d in board.tasks
        invariant forall d :: d in statuses ==> statuses[d] == board.tasks[d].status
      {
        assert ids[..i + 1] == ids[..i] + [ids[i]];
        if ids[i] in board.tasks {
          statuses := statuses[ids[i] := board.tasks[ids[i]].status];
        }
      }
      assert ids[..|ids|] == ids;
    }

    method BlockedByIds(ids: seq<TaskId>, statuses: map<TaskId, Status>) returns (blocked: seq<TaskId>)
      requires forall d :: d in ids ==> (d in statuses <==> d in board.tasks)
      requires forall d :: d in ids && d in statuses ==> statuses[d] == board.tasks[d].status
      ensures blocked == BlockedBy(board.tasks, ids)
    {
      blocked := [];
      for i := 0 to |ids|
        invariant blocked == BlockedBy(board.tasks, ids[..i])
      {
        assert ids[..i + 1][..i] == ids[..i];
        if ids[i] !in statuses || statuses[ids[i]] != Finished {
          blocked := blocked + [ids[i]];
        }
      }
      assert ids[..|ids|] == ids;
    }

    /** Tags by task, in the order in which they were assigned. */
    method TagState(tasks: seq<TaskId>) returns (tags: map<TaskId, seq<TagId>>)
      ensures forall t :: t in tasks ==> (if t in tags then tags[t] else []) == TagsOf(assignments, t)
    {
      tags := map[];
      for i := 0 to |assignments|
        invariant forall t :: t in tasks ==> (if t in tags then tags[t] else []) == TagsOf(assignments[..i], t)
      {
        assert assignments[..i + 1][..i] == assignments[..i];
        var a := assignments[i];
        if a.task in tasks {
          tags := tags[a.task := (if a.task in tags then tags[a.task] else []) + [a.tag]];
        }
      }
      assert assignments[..|assignments|] == assignments;
    }

    /** One task, with queries of its own. */
    method ReadOne(t: TaskId) returns (r: TaskRead)
      requires t in board.tasks && store.Valid()
      ensures r == ReadOf(board, assignments, CustomFields.View(store.defs, store.rows, t), t)
    {
      var deps := DepsOf(board.deps, t);
      var tags := TagState([t]);
      assert t in [t];
      var statuses := DependencyStatus(deps);
      var blocked := BlockedByIds(deps, statuses);
      var fields := store.ReadAll([t]);
      if board.tasks[t].status == Finished {
        blocked := [];
      }
      r := TaskRead(board.tasks[t], deps, if t in tags then tags[t] else [], blocked, blocked != [], fields[t]);
    }

    /** A page of tasks from queries over all of them: each entry is what
        reading that task alone gives. */
    method ReadPage(tasks: seq<TaskId>) returns (page: seq<TaskRead>)
      requires (forall t :: t in tasks ==> t in board.tasks) && store.Valid()
      ensures |page| == |tasks|
      ensures forall i :: 0 <= i < |tasks| ==>
        page[i] == ReadOf(board, assignments, CustomFields.View(store.defs, store.rows, tasks[i]), tasks[i])
    {
      hide DepsOf, BlockedBy, TagsOf, CustomFields.View, CustomFields.UniqueRows, CustomFields.DistinctIds;
      var tags := TagState(tasks);
      var depIds := AllDependencies(tasks);
      var statuses := DependencyStatus(depIds);
      var fields := store.ReadAll(tasks);
      page := [];
      for i := 0 to |tasks|
        invariant |page| == i
        invariant forall k :: 0 <= k < i ==>
          page[k] == ReadOf(board, assignments, CustomFields.View(store.defs, store.rows, tasks[k]), tasks[k])
      {
        var t := tasks[i];
        assert t in tasks;
        var deps := DepsOf(board.deps, t);
        var blocked := BlockedByIds(deps, statuses);
        if board.tasks[t].status == Finished {
          blocked := [];
        }
        page := page + [TaskRead(board.tasks[t], deps, if t in tags then tags[t] else [], blocked, blocked != [],
          fields[t])];
      }
    }

    method AllDependencies(tasks: seq<TaskId>) returns (ids: seq<TaskId>)
      ensures forall t, d :: t in tasks && d in DepsOf(board.deps, t) ==> d in ids
    {
      ids := [];
      for i := 0 to |tasks|
        invariant forall t, d :: t in tasks[..i] && d in DepsOf(board.deps, t) ==> d in ids
      {
        assert tasks[..i + 1] == tasks[..i] + [tasks[i]];
        ids := ids + DepsOf(board.deps, tasks[i]);
      }
      assert tasks[..|tasks|] == tasks;
    }
  }
}
