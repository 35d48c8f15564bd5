/** What approval requests answer in the end: the status an approval has after
    any run, and that a request nobody stands in the way of answers what the
    endpoint answers when it runs alone. */
module ApprovalAnswers {
  import opened Prelude
  import opened BoardModel
  import opened TaskRules
  import Safety = TaskSafety
  import opened ApprovalRules
  import opened ApprovalProtocol

  // ---- one request at a time ----------------------------------------------

  /** The approval names the task, as its primary one or by a link. */
  predicate Names(b: Board, a: ApprovalId, t: TaskId)
    requires a in b.approvals
  {
    b.approvals[a].primary == Some(t) || Link(a, t) in b.links
  }

  /** The approval that the done gate asks for: it is there afterwards if and only
      if the request approves one that names the task, or another one is. */
  lemma ApprovalOpensGate(b: Board, a: ApprovalId, target: ApprovalStatus, t: TaskId)
    requires a in b.approvals
    ensures HasApprovedApproval(Resolved(b, a, target), t) <==>
      || (target == Approved && Names(b, a, t))
      || exists c :: c in b.approvals && c != a && b.approvals[c].status == Approved && Names(b, c, t)
  {
    var after := Resolved(b, a, target);
    if target == Approved && Names(b, a, t) {
      assert after.approvals[a].status == Approved;
    }
    if c :| c in b.approvals && c != a && b.approvals[c].status == Approved && Names(b, c, t) {
      assert after.approvals[c] == b.approvals[c];
    }
  }

  // ---- the status after any run -------------------------------------------

  /** The event is the commit of a request that writes this status to the approval:
      a new one, or a change of the status that the request had read. */
  ghost predicate Writes(s: Server, e: Event, a: ApprovalId, status: ApprovalStatus) {
    && e.Commit? && e.r in s.requests && s.requests[e.r].ready && s.requests[e.r].todo == []
    && match s.requests[e.r].kind
       case Insert(wanted) =>
         && e.id == a && FreshApproval(s, a) && wanted == status
         && forall t :: t in s.requests[e.r].tasks ==> TaskExists(s.board, t)
       case Resolve(c, prior, target) => c == a && a in s.board.approvals && target != prior && target == status
  }

  ghost predicate IsWritten(s: Server, e: Event, a: ApprovalId) {
    exists status :: Writes(s, e, a, status)
  }

  lemma BoardStepKeepsStatus(b: Board, step: Safety.Step, a: ApprovalId)
    requires !step.ResolveApprovals? && a in Safety.Next(b, step).approvals
    ensures a in b.approvals && Safety.Next(b, step).approvals[a].status == b.approvals[a].status
  {
    if step.Change? && PatchTask(b, step.id, step.actor, step.patch, step.env).Success? {
      var row, deps := Safety.PatchShape(b, step.id, step.actor, step.patch, step.env);
      hide PatchTask;
    }
  }

  lemma OneEvent(s: Server, e: Event, a: ApprovalId)
    requires a in Next(s, e).board.approvals
    ensures forall status :: Writes(s, e, a, status) ==> Next(s, e).board.approvals[a].status == status
    ensures !IsWritten(s, e, a) ==>
      a in s.board.approvals && Next(s, e).board.approvals[a].status == s.board.approvals[a].status
  {
    hide Safety.Next, HasConflict, FreshApproval;
    match e {
      case Commit(r, id) =>
        if r in s.requests {
          CommitWrites(s, r, id, a);
        }
      case TaskRequest(step) =>
        if TaskStepAllowed(s, step) {
          BoardStepKeepsStatus(s.board, step, a);
        }
      case _ =>
    }
  }

  lemma CommitWrites(s: Server, r: RequestId, id: ApprovalId, a: ApprovalId)
    requires r in s.requests && a in Committed(s, r, id).board.approvals
    ensures forall status :: Writes(s, Commit(r, id), a, status) ==>
      Committed(s, r, id).board.approvals[a].status == status
    ensures !IsWritten(s, Commit(r, id), a) ==>
      a in s.board.approvals && Committed(s, r, id).board.approvals[a].status == s.board.approvals[a].status
  {
    hide HasConflict, FreshApproval;
    var q := s.requests[r];
    var status := match q.kind case Insert(status) => status case Resolve(_, _, target) => target;
    if !IsWritten(s, Commit(r, id), a) {
      assert !Writes(s, Commit(r, id), a, status);
    }
  }

  ghost predicate WrittenAt(s: Server, events: seq<Event>, a: ApprovalId, k: int, status: ApprovalStatus) {
    0 <= k < |events| && Writes(Run(s, events[..k]), events[k], a, status)
  }

  /** No event behind number k writes the approval. */
  ghost predicate NotWrittenSince(s: Server, events: seq<Event>, a: ApprovalId, k: int) {
    forall j, status :: k < j ==> !WrittenAt(s, events, a, j, status)
  }

  lemma WrittenSnoc(s: Server, front: seq<Event>, e: Event, a: ApprovalId)
    ensures forall k, status :: k < |front| ==>
      (WrittenAt(s, front + [e], a, k, status) <==> WrittenAt(s, front, a, k, status))
    ensures forall status :: WrittenAt(s, front + [e], a, |front|, status) <==> Writes(Run(s, front), e, a, status)
  {
    hide Run, Writes;
    assert forall k :: 0 <= k < |front| ==> front[..k] == (front + [e])[..k];
    assert (front + [e])[..|front|] == front;
  }

  lemma UnwrittenSnoc(s: Server, front: seq<Event>, e: Event, a: ApprovalId)
    ensures NotWrittenSince(s, front + [e], a, |front|)
    ensures !IsWritten(Run(s, front), e, a) ==>
      forall k :: NotWrittenSince(s, front, a, k) ==> NotWrittenSince(s, front + [e], a, k)
  {
    WrittenSnoc(s, front, e, a);
    hide Run, Writes;
    assert forall k, status :: WrittenAt(s, front + [e], a, k, status) ==> k <= |front|;
  }

  /** However requests interleave: an approval has the status that was written last,
      and the one it had at first when nobody wrote it. */
  lemma {:induction false} LastWriteWins(s: Server, events: seq<Event>, a: ApprovalId)
    requires a in Run(s, events).board.approvals
    ensures var status := Run(s, events).board.approvals[a].status;
      || (NotWrittenSince(s, events, a, -1) && a in s.board.approvals && s.board.approvals[a].status == status)
      || exists k :: WrittenAt(s, events, a, k, status) && NotWrittenSince(s, events, a, k)
  {
    if events != [] {
      var n := |events| - 1;
      var front, last := events[..n], events[n];
      assert events == front + [last];
      var mid := Run(s, front);
      OneEvent(mid, last, a);
      WrittenSnoc(s, front, last, a);
      UnwrittenSnoc(s, front, last, a);
      hide Run, Next, Writes, NotWrittenSince, WrittenAt;
      if IsWritten(mid, last, a) {
        var status :| Writes(mid, last, a, status);
        assert WrittenAt(s, events, a, n, status);
      } else {
        LastWriteWins(s, front, a);
        var status := mid.board.approvals[a].status;
        if !NotWrittenSince(s, front, a, -1) {
          var k :| WrittenAt(s, front, a, k, status) && NotWrittenSince(s, front, a, k);
          WrittenInside(s, front, a, k, status);
          assert WrittenAt(s, events, a, k, status);
        }
      }
    }
  }

  lemma WrittenInside(s: Server, events: seq<Event>, a: ApprovalId, k: int, status: ApprovalStatus)
    requires WrittenAt(s, events, a, k, status)
    ensures 0 <= k < |events|
  {
  }

  // ---- a request that nobody stands in the way of --------------------------

  /** What the endpoints of ApprovalService.dfy make of the board. */
  function Answer(b: Board, kind: Kind, tasks: seq<TaskId>, id: ApprovalId): Board {
    match kind
    case Insert(status) =>
      if (status == Pending && HasConflict(b, tasks, None)) || exists t :: t in tasks && !TaskExists(b, t) then b
      else Inserted(b, id, status, tasks)
    case Resolve(a, prior, target) =>
      if a !in b.approvals || (target == Pending && prior != Pending && HasConflict(b, tasks, Some(a))) then b
      else if target == prior then b
      else Resolved(b, a, target)
  }

  lemma CheckAndCommitAnswer(s: Server, r: RequestId, id: ApprovalId)
    requires r in s.requests && s.requests[r].todo == [] && FreshApproval(s, id)
    requires s.requests[r].ready <==> !s.requests[r].kind.NeedsCheck() || s.requests[r].tasks == []
    ensures Run(s, [Check(r), Commit(r, id)]).board == Answer(s.board, s.requests[r].kind, s.requests[r].tasks, id)
  {
    hide FreshApproval, Inserted, Resolved, PendingOn;
    var events := [Check(r), Commit(r, id)];
    assert events[..1] == [Check(r)] && events[..1][..0] == [];
    assert Run(s, events[..0]) == s;
    var mid := Next(s, Check(r));
    assert Run(s, events) == Next(mid, Commit(r, id));
    StillFresh(s, r, id);
  }

  /** From its first lock to its commit: a request that finds all its locks free
      answers what the endpoint answers to it on the tables as they are. */
  lemma FreeRequestAnswers(s: Server, r: RequestId, kind: Kind, tasks: seq<TaskId>, id: ApprovalId)
    requires r in s.requests && s.requests[r] == Started(kind, tasks) && FreshApproval(s, id)
    requires IsFree(s, r) && Ascending(s.requests[r].todo)
    ensures Run(s, OwnEvents(r, |s.requests[r].todo|, id)).board == Answer(s.board, kind, tasks, id)
  {
    hide Run, Ascending, HasConflict;
    var n := |s.requests[r].todo|;
    LocksAreTaken(s, r, n);
    var mid := Run(s, seq(n, i => Lock(r)));
    RunInTwoParts(s, seq(n, i => Lock(r)), [Check(r), Commit(r, id)]);
    hide IsFree;
    if r in mid.requests {
      assert s.requests[r].todo[n..] == [];
      assert mid.requests[r] == s.requests[r].(todo := []);
      assert FreshApproval(mid, id);
      hide FreshApproval, HasAsked;
      CheckAndCommitAnswer(mid, r, id);
    } else {
      GoneDoesNothing(mid, r, id);
    }
  }

  lemma GoneDoesNothing(s: Server, r: RequestId, id: ApprovalId)
    requires r !in s.requests
    ensures Run(s, [Check(r), Commit(r, id)]) == s
  {
    var events := [Check(r), Commit(r, id)];
    assert events[..1] == [Check(r)] && events[..1][..0] == [];
    assert Run(s, events[..0]) == s;
    assert Run(s, events[..1]) == Next(s, Check(r));
  }
}
