/** Approvals of one board: which tasks they concern, when two of them
    conflict, and what creating and resolving one does to the tables. */
module ApprovalRules {
  import opened Prelude
  import opened BoardModel
  import opened TaskRules

  predicate PendingOn(b: Board, a: ApprovalId, t: TaskId) {
    a in b.approvals && b.approvals[a].status == Pending && Concerns(b.links, a, b.approvals[a], t)
  }

  /** Each task can have only one pending approval. */
  ghost predicate OnePending(b: Board) {
    forall a, c, t :: PendingOn(b, a, t) && PendingOn(b, c, t) ==> a == c
  }

  /** Foreign keys hold, and an approval with links is linked to its primary task. */
  ghost predicate References(b: Board) {
    && (forall l :: l in b.links ==> l.approval in b.approvals && TaskExists(b, l.task))
    && (forall a, t :: a in b.approvals && b.approvals[a].primary == Some(t) ==> TaskExists(b, t))
    && (forall l :: l in b.links && l.approval in b.approvals ==>
          exists t :: b.approvals[l.approval].primary == Some(t) && Link(l.approval, t) in b.links)
  }

  /** Some pending approval other than `exclude` concerns one of the tasks. */
  predicate HasConflict(b: Board, tasks: seq<TaskId>, exclude: Option<ApprovalId>) {
    exists a, t :: a in b.approvals && t in tasks && PendingOn(b, a, t) && exclude != Some(a)
  }

  function Primary(tasks: seq<TaskId>): Option<TaskId> {
    if tasks == [] then None else Some(tasks[0])
  }

  function LinksTo(a: ApprovalId, tasks: seq<TaskId>): (r: seq<Link>)
    ensures forall l :: l in r <==> l.approval == a && l.task in tasks
  {
    if tasks == [] then []
    else
      assert tasks == tasks[..|tasks| - 1] + [tasks[|tasks| - 1]];
      LinksTo(a, tasks[..|tasks| - 1]) + [Link(a, tasks[|tasks| - 1])]
  }

  function WithoutLinks(links: seq<Link>, a: ApprovalId): seq<Link> {
    Filter((l: Link) => l.approval != a, links)
  }

  function Inserted(b: Board, a: ApprovalId, status: ApprovalStatus, tasks: seq<TaskId>): Board {
    b.(approvals := b.approvals[a := ApprovalRow(status, Primary(tasks))],
       links := WithoutLinks(b.links, a) + LinksTo(a, tasks))
  }

  function Resolved(b: Board, a: ApprovalId, target: ApprovalStatus): Board
    requires a in b.approvals
  {
    b.(approvals := b.approvals[a := b.approvals[a].(status := target)])
  }

  /** The tasks an update looks at: the linked ones, or else the primary one. */
  function TasksOf(b: Board, a: ApprovalId): seq<TaskId>
    requires a in b.approvals
  {
    var linked := LinkedTasks(b.links, a);
    if linked == [] && b.approvals[a].primary.Some? then [b.approvals[a].primary.value] else linked
  }

  // ---- facts ---------------------------------------------------------------

  lemma {:induction false} LinkedTasksAre(links: seq<Link>, a: ApprovalId)
    ensures forall t :: t in LinkedTasks(links, a) <==> Link(a, t) in links
    ensures LinkedTasks(links, a) != [] ==> IsOldestLink(links, a, LinkedTasks(links, a)[0])
  {
    if links != [] {
      var front, last := links[..|links| - 1], links[|links| - 1];
      LinkedTasksAre(front, a);
      assert links == front + [last];
      hide IsOldestLink;
      OldestSnoc(front, last, a);
    }
  }

  lemma OldestSnoc(front: seq<Link>, last: Link, a: ApprovalId)
    ensures forall t :: IsOldestLink(front, a, t) ==> IsOldestLink(front + [last], a, t)
    ensures (forall t :: Link(a, t) !in front) && last.approval == a ==> IsOldestLink(front + [last], a, last.task)
  {
    var links := front + [last];
    forall t | IsOldestLink(front, a, t) ensures IsOldestLink(links, a, t) {
      var i :| 0 <= i < |front| && front[i] == Link(a, t) && forall j :: 0 <= j < i ==> front[j].approval != a;
      assert links[i] == front[i] && forall j :: 0 <= j < i ==> links[j] == front[j];
    }
    if (forall t :: Link(a, t) !in front) && last.approval == a {
      forall j | 0 <= j < |front| ensures links[j].approval != a {
        assert front[j] in front && front[j] == Link(front[j].approval, front[j].task);
      }
      assert links[|front|] == Link(a, last.task);
    }
  }

  /** The first link row of an approval. */
  ghost predicate IsOldestLink(links: seq<Link>, a: ApprovalId, t: TaskId) {
    exists i :: 0 <= i < |links| && links[i] == Link(a, t) && forall j :: 0 <= j < i ==> links[j].approval != a
  }

  lemma TasksOfAre(b: Board, a: ApprovalId)
    requires a in b.approvals
    ensures forall t :: t in TasksOf(b, a) <==> Concerns(b.links, a, b.approvals[a], t)
  {
    LinkedTasksAre(b.links, a);
    if HasLink(b.links, a) {
      var l :| l in b.links && l.approval == a;
      assert Link(a, l.task) in b.links;
      assert l.task in LinkedTasks(b.links, a);
    }
    if LinkedTasks(b.links, a) != [] {
      assert Link(a, LinkedTasks(b.links, a)[0]) in b.links;
    }
  }

  /** Deletion can only take tasks away from an approval. */
  lemma DeletionShrinks(b: Board, t: TaskId, a: ApprovalId, u: TaskId)
    requires References(b)
    requires a in DeleteTask(b, t).approvals
    requires Concerns(DeleteTask(b, t).links, a, DeleteTask(b, t).approvals[a], u)
    ensures a in b.approvals && b.approvals[a].status == DeleteTask(b, t).approvals[a].status
    ensures Concerns(b.links, a, b.approvals[a], u) && u != t
  {
    var after := DeleteTask(b, t);
    LinkedTasksAre(after.links, a);
    if LinkedTasks(after.links, a) != [] {
      assert Link(a, LinkedTasks(after.links, a)[0]) in after.links;
    }
    if b.approvals[a].primary != Some(t) && HasLink(b.links, a) {
      var l :| l in b.links && l.approval == a;
      var p :| b.approvals[a].primary == Some(p) && Link(a, p) in b.links;
      assert Link(a, p) in after.links;
    }
  }

  lemma DeletionKeepsReferences(b: Board, t: TaskId)
    requires References(b)
    ensures References(DeleteTask(b, t))
  {
    var after := DeleteTask(b, t);
    forall l | l in after.links
      ensures l.approval in after.approvals && TaskExists(after, l.task)
      ensures exists p :: after.approvals[l.approval].primary == Some(p) && Link(l.approval, p) in after.links
    {
      LinkedTasksAre(after.links, l.approval);
      assert Link(l.approval, l.task) in after.links;
      assert LinkedTasks(after.links, l.approval)[0] in LinkedTasks(after.links, l.approval);
      var p :| b.approvals[l.approval].primary == Some(p) && Link(l.approval, p) in b.links;
      if p != t {
        assert Link(l.approval, p) in after.links;
      }
    }
    forall a, p | a in after.approvals && after.approvals[a].primary == Some(p) ensures TaskExists(after, p) {
      LinkedTasksAre(after.links, a);
      if b.approvals[a].primary == Some(t) {
        assert p in LinkedTasks(after.links, a);
        assert Link(a, p) in after.links;
      }
    }
  }

  lemma InsertionConcerns(b: Board, a: ApprovalId, status: ApprovalStatus, tasks: seq<TaskId>)
    requires References(b) && a !in b.approvals
    requires forall t :: t in tasks ==> TaskExists(b, t)
    ensures var after := Inserted(b, a, status, tasks);
      && References(after)
      && (forall c, t :: c in b.approvals ==>
            (Concerns(after.links, c, b.approvals[c], t) <==> Concerns(b.links, c, b.approvals[c], t)))
      && (forall t :: Concerns(after.links, a, after.approvals[a], t) <==> t in tasks)
  {
    var after := Inserted(b, a, status, tasks);
    InsertedLinks(b, a, status, tasks);
    forall c | c in b.approvals
      ensures forall t :: Concerns(after.links, c, b.approvals[c], t) <==> Concerns(b.links, c, b.approvals[c], t)
    {
      SameLinksSameConcerns(b.links, after.links, c, b.approvals[c]);
    }
    forall t ensures Concerns(after.links, a, after.approvals[a], t) <==> t in tasks {
      if tasks != [] {
        assert Link(a, tasks[0]) in after.links;
      }
    }
    hide Concerns;
    InsertionKeepsReferences(b, a, status, tasks);
  }

  lemma InsertedLinks(b: Board, a: ApprovalId, status: ApprovalStatus, tasks: seq<TaskId>)
    ensures forall l :: l in Inserted(b, a, status, tasks).links <==>
      (l in b.links && l.approval != a) || (l.approval == a && l.task in tasks)
  {
  }

  lemma SameLinksSameConcerns(links: seq<Link>, after: seq<Link>, c: ApprovalId, row: ApprovalRow)
    requires forall l: Link :: l.approval == c ==> (l in after <==> l in links)
    ensures forall t :: Concerns(after, c, row, t) <==> Concerns(links, c, row, t)
  {
    assert HasLink(links, c) <==> HasLink(after, c);
  }

  lemma InsertionKeepsReferences(b: Board, a: ApprovalId, status: ApprovalStatus, tasks: seq<TaskId>)
    requires References(b) && a !in b.approvals
    requires forall t :: t in tasks ==> TaskExists(b, t)
    ensures References(Inserted(b, a, status, tasks))
  {
    var after := Inserted(b, a, status, tasks);
    InsertedLinks(b, a, status, tasks);
    forall l | l in after.links
      ensures l.approval in after.approvals && TaskExists(after, l.task)
      ensures exists p :: after.approvals[l.approval].primary == Some(p) && Link(l.approval, p) in after.links
    {
      if l.approval == a {
        assert Link(a, tasks[0]) in after.links;
      } else {
        var p :| b.approvals[l.approval].primary == Some(p) && Link(l.approval, p) in b.links;
        assert Link(l.approval, p) in after.links;
      }
    }
  }

  // ---- one request at a time -------------------------------------------------

  lemma InsertionKeepsOnePending(b: Board, a: ApprovalId, status: ApprovalStatus, tasks: seq<TaskId>)
    requires References(b) && OnePending(b) && a !in b.approvals
    requires forall t :: t in tasks ==> TaskExists(b, t)
    requires status == Pending ==> !HasConflict(b, tasks, None)
    ensures OnePending(Inserted(b, a, status, tasks))
  {
    var after := Inserted(b, a, status, tasks);
    InsertionConcerns(b, a, status, tasks);
    forall c, t | PendingOn(after, c, t) && c != a ensures PendingOn(b, c, t) {}
    hide Concerns, Inserted;
  }

  /** Setting an approval to pending is safe when nothing else is pending on
      its tasks; any other change of status is always safe. */
  lemma ResolutionKeepsOnePending(b: Board, a: ApprovalId, target: ApprovalStatus)
    requires References(b) && OnePending(b) && a in b.approvals
    requires target == Pending ==> forall c, t :: PendingOn(b, c, t) && Concerns(b.links, a, b.approvals[a], t) ==>
      c == a
    ensures References(Resolved(b, a, target)) && OnePending(Resolved(b, a, target))
  {
    var after := Resolved(b, a, target);
    assert forall c, t :: c in b.approvals ==>
      (Concerns(after.links, c, after.approvals[c], t) <==> Concerns(b.links, c, b.approvals[c], t));
    hide Concerns;
    forall c, t | PendingOn(after, c, t) && c != a ensures PendingOn(b, c, t) {}
  }

  // ---- two boards ---------------------------------------------------------------

  /** No task has a pending approval on both boards. */
  ghost predicate NoSharedPending(b: Board, c: Board) {
    forall a, d, t :: PendingOn(b, a, t) ==> !PendingOn(c, d, t)
  }

  /** The conflict check asks one board only: across boards a new pending
      approval keeps tasks to one pending approval if and only if the same
      check would have passed on the other board too. */
  lemma OtherBoardIff(b: Board, c: Board, a: ApprovalId, tasks: seq<TaskId>)
    requires References(b) && a !in b.approvals && !HasConflict(b, tasks, None)
    requires forall t :: t in tasks ==> TaskExists(b, t)
    requires NoSharedPending(b, c)
    ensures NoSharedPending(Inserted(b, a, Pending, tasks), c) <==> !HasConflict(c, tasks, None)
  {
    var after := Inserted(b, a, Pending, tasks);
    InsertionConcerns(b, a, Pending, tasks);
    assert forall t :: PendingOn(after, a, t) <==> t in tasks;
    assert forall e, t :: e != a ==> (PendingOn(after, e, t) <==> PendingOn(b, e, t));
    assert forall d, t :: PendingOn(c, d, t) ==> d in c.approvals;
    hide PendingOn, Inserted, References;
    if HasConflict(c, tasks, None) {
      var d, t :| d in c.approvals && t in tasks && PendingOn(c, d, t) && None != Some(d);
      assert PendingOn(after, a, t);
    }
  }

  function EmptyBoard(): Board {
    Board(map[], map[], map[], [], BoardFlags(false, false, false, false), {})
  }

  /** The board of task 1, with a pending approval for it. */
  function HomeOfTask(): Board {
    EmptyBoard().(tasks := map[1 := TaskRow(Review, None, None, None, Standard, false, None)], deps := map[1 := []],
                  approvals := map[5 := ApprovalRow(Pending, Some(1))])
  }

  /** So it happens: task 1 is pending on its board, and a request on another
      board that names it is accepted. */
  lemma PendingOnTwoBoards()
    ensures var b, c := EmptyBoard().(foreign := {1}), HomeOfTask();
      && References(b) && References(c) && NoSharedPending(b, c)
      && TaskExists(b, 1) && !HasConflict(b, [1], None)
      && !NoSharedPending(Inserted(b, 6, Pending, [1]), c)
  {
    var b, c := EmptyBoard().(foreign := {1}), HomeOfTask();
    assert References(b) && References(c) && NoSharedPending(b, c) && !HasConflict(b, [1], None);
    assert PendingOn(c, 5, 1);
    assert 1 in [1] && HasConflict(c, [1], None);
    OtherBoardIff(b, c, 6, [1]);
  }
}
