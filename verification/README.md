# Mission Control backend: boards, streams, metrics and registries

A Dafny model of the parts of the backend that keep state or carry a hard
algorithm, with proofs of what they promise. `dafny verify dfyconfig.toml`
checks everything.

## What is modelled

| files | subject |
|---|---|
| `Prelude.dfy`, `BoardModel.dfy` | sequences and options; rows and tables of one board |
| `DependencyGraph.dfy` | cycle detection by depth-first search |
| `TaskRules.dfy`, `TaskService.dfy`, `TaskSafety.dfy` | creating, patching (admin, worker, lead), reconciling and deleting tasks: as functions on tables, as classes that update rows in place, and as runs |
| `TaskEffects.dfy`, `TaskAcceptance.dfy` | the same requests told in fields and tables: what each leaves behind, what it leaves alone, and what it is refused for |
| `ApprovalRules.dfy`, `ApprovalService.dfy`, `ApprovalProtocol.dfy`, `ApprovalAnswers.dfy` | approvals: on tables, as a store changed in place, as requests that interleave with each other and with task requests, and what these answer |
| `TaskDeletion.dfy`, `TaskReads.dfy`, `CustomFields.dfy` | rows beside a task: deletion, single and batch reads, custom field values |
| `EventStream.dfy` | the polling event generators with their cursor and bounded window |
| `JsonGrammar.dfy`, `JsonReader.dfy`, `JsonDocuments.dfy` | the chunked reader of `skills_index.json` and the JSON values it decodes |
| `JsonText.dfy`, `JsonRoundTrip.dfy` | an independent printer of JSON texts, and reading back what it prints |
| `TreeUrl.dfy`, `PackSync.dfy` | tree URLs of skills, skill counts, synchronizing a skill pack |
| `Calendar.dfy`, `Metrics.dfy` | the Gregorian calendar of `datetime`, time ranges, buckets and series |
| `PromptEvolution.dfy` | the champion/challenger registry |

Code that changes rows, buffers or registries step by step is a class or a
method with loops; its contract ties the new state to a function of the old
one, and the lemmas are about that function, about runs, or about an
independent definition. Code made of expressions is functions.

The main results, in words:

- **Boards.** In every run of creations, patches by any role and deletions the
  dependency graph stays acyclic, and a task that is not done but has an undone
  dependency is in the inbox, unowned and not started, unless it broke that
  rule from the start or a lead replaced its dependencies. That last step is
  characterized exactly, with a concrete board on which it breaks the rule. A
  task that is done was done from the start, or has been so since a patch, on
  whatever role path, that took it through all gates, or since it was created
  as done, which no gate but that of the dependencies guards
  (`CreationAcceptedIff`). For every role the fields a PATCH leaves, the frame
  around them, when it is accepted and the first reason it is refused for are
  stated in terms of the tables; a task that a worker started stays that
  worker's until the next request for it or until a dependency is reopened.
- **Approvals.** In every interleaving of approval requests (split into
  reading, locking row by row, checking and committing) with task requests no
  task gets a second pending approval, and the board results above still hold.
  An approval has the status that was written last, and a request that finds
  its locks free answers what the endpoint answers alone.
  Approval requests can deadlock each other, but only through a creation that
  need not check and whose task list does not ascend: an equivalence, with the
  run that deadlocks.
- **Streams.** Whatever a run of polls fetches is sent exactly once, in time
  order; nothing visible is lost if and only if no event appears after a later
  one has been fetched; and the bound on ties that this needs, as an
  equivalence on the log.
- **JSON.** The chunked reader returns what parsing the whole text and picking
  the entries returns, for every chunk size no white space run exceeds, if and
  only if no number member is cut by the end of a chunk; otherwise it refuses.
  Parsing accepts exactly the texts of the grammar, in every spelling, and a
  printed index is read back as the list that was printed.
- **Metrics.** Buckets cover a range, each time exactly once; the points of a
  series conserve totals and each counts the rows of its bucket; the number of
  buckets of every range, exactly, including the leap day condition for a year.
- **Registries.** Promotion compares the means of the scores; unforced
  promotions climb and never return to a version if and only if the minimum
  delta is positive; the tree URL round trip holds if and only if the repository
  path has an explicit shape; a second identical sync changes nothing; custom
  fields read what was written last.

Where code and documentation differ the code is followed. Four places: the
message "Each task can have only one pending approval" is true per board only,
because the query filters on the board (`OtherBoardIff` says exactly when it
holds across boards, `PendingOnTwoBoards` shows that it can fail); a creation
that need not check takes the shared locks of its foreign keys in the order of
its list, so the deterministic lock order of the other requests does not rule
out deadlocks (`DeadlockIff`); a lead's patch that only replaces dependencies
does not park a task, although an admin's does; and with a minimum score delta
of zero or less the champion can be promoted over itself without `force`.

Notation: `Finished` is the status `done`; `Parked` is inbox, unassigned, no
`in_progress_at`; a `None` in a patch is a field that was not sent.

## Model

| member | source | states |
|---|---|---|
| DependencyGraph.CycleDetector.Dfs | backend/app/services/task_dependencies.py:111-129 | one call of the nested search finds a looped walk through the stack, or leaves a set of visited tasks from which none exists |
| DependencyGraph.CycleDetector.HasCycle | backend/app/services/task_dependencies.py:111-129 | the search answers true if and only if some walk from a listed task visits a task twice |
| DependencyGraph.OrderedHasNoLoop | backend/app/services/task_dependencies.py:111-129 | if all edges of a duplicate-free list point backwards, no walk from it loops; this is why the visited order proves absence |
| DependencyGraph.ReachableIffCyclic | backend/app/services/task_dependencies.py:165-186 | starting from every task of the board misses no cycle anywhere in the edges |
| DependencyGraph.ReachableIffCyclicWithNewTask | backend/app/services/task_dependencies.py:165-186 | nor does it when the edges of a task that is still being created are laid over them |
| DependencyGraph.FewerEdgesStayAcyclic | backend/app/api/tasks.py:1746-1754 | dropping dependency rows cannot create a cycle |
| TaskService.Normalize | backend/app/services/task_dependencies.py:22-31 | the loop keeps the first occurrence of every id, in order |
| Prelude.FirstPlaces | backend/app/services/task_dependencies.py:22-31 | every id is kept where it occurs first, in the order of these places |
| TaskService.BoardService.ValidateDependencyUpdate | backend/app/services/task_dependencies.py:132-193 | self-dependency, missing tasks and cycles are refused in this order, everything else normalized |
| TaskService.BoardService.EffectiveDependencies | backend/app/api/tasks.py:2108-2142 | the dependencies a patch works with: the replaced ones, staged in the transaction, or the current ones; frozen when done |
| TaskService.BoardService.ReconcileDependents | backend/app/api/tasks.py:562-630 | the loop over dependents, row by row, ends in the board that `Reconciled` describes |
| TaskService.BoardService.LeadApplyAssignment | backend/app/api/tasks.py:2163-2184 | which assignments of a lead are refused, and the assignee otherwise |
| TaskService.BoardService.LeadApplyStatus | backend/app/api/tasks.py:2187-2210 | a lead moves tasks out of review only, to done or inbox, and to inbox with a reset |
| TaskService.BoardService.ApplyLeadTaskUpdate | backend/app/api/tasks.py:2248-2349 | the lead path ends in the new board or the error that `LeadPatch` names; a refused patch commits nothing |
| TaskService.BoardService.ApplyNonLeadAgentTaskRules | backend/app/api/tasks.py:2352-2432 | the five refusals of the worker path, in order, and the row it leaves |
| TaskService.BoardService.ApplyAdminTaskRules | backend/app/api/tasks.py:2435-2505 | the admin path resets a blocked task instead of refusing, and the record with the pending updates spells the final row |
| TaskService.BoardService.FinalizeUpdatedTask | backend/app/api/tasks.py:2609-2699 | updates are assigned before the gates run; success commits the row and reconciles the dependents |
| TaskService.BoardService.UpdateTask | backend/app/api/tasks.py:1643-1705 | every PATCH ends in the board of `PatchTask` or leaves the board untouched with its error |
| TaskService.BoardService.CreateTaskRow | backend/app/api/tasks.py:1427-1493 | creation by an admin or by the lead ends in the board of `CreateTask` or is refused without effect |
| TaskSafety.CreationAcceptedIff | backend/app/api/agent.py:706-757 | a creation is accepted if and only if its dependencies exist and are done or it starts unassigned in the inbox, and the guards and, for the lead, the assignment checks pass; it is never refused for a cycle |
| TaskService.BoardService.DeleteTaskRows | backend/app/api/tasks.py:1727-1754 | the deletion loop over primary approvals ends in the board of `DeleteTask` |
| TaskSafety.OnePassReconciles | backend/app/api/tasks.py:562-630 | one pass is enough: nothing becomes done or undone, nobody's blockedness changes, only direct dependents that are not done change and they end parked, and a second pass changes nothing |
| TaskSafety.ReplacedDependenciesWellFormed | backend/app/services/task_dependencies.py:132-225 | an accepted dependency update keeps the graph of the whole board acyclic, for existing and for new tasks |
| TaskSafety.BlockedRowKept | backend/app/api/tasks.py:2408-2420 | a task with undone dependencies comes out of its own PATCH done, parked, or exactly as active as before |
| TaskSafety.OthersUnharmed | backend/app/api/tasks.py:582-605 | whatever a PATCH does to its task, no other task becomes active while blocked |
| TaskSafety.PatchAddsNoViolation | backend/app/api/tasks.py:1643-1705 | no PATCH of any role activates a blocked task, and the only new offender can be the task whose dependencies a lead replaces |
| TaskSafety.LeadPatchSafeIff | backend/app/api/tasks.py:2264-2273 | a lead's PATCH keeps a safe board safe if and only if it leaves dependencies alone, or the new ones are all done, or the task is parked |
| TaskSafety.LeadPatchCanBreakSafety | backend/app/api/tasks.py:2264-2273 | the exempt step happens: a running task is made to wait for an unfinished one and stays running |
| TaskSafety.DoneGate | backend/app/api/tasks.py:325-443 | a PATCH makes at most its own task done, and only with all dependencies done, the review and approval rules met, no blocking pending approval and the engineering checks passed |
| TaskSafety.NoMissingChecks | backend/app/api/tasks.py:375-415 | an empty list of missing checks means that each required check is true, the screenshot too whenever `ui_labeled` counts as checked, from the flag or from the dictionary |
| TaskSafety.PatchKeepsStartTimes | backend/app/api/tasks.py:2421-2432 | inbox and review mean no start time and in progress means one: no step breaks it, and workers and admins restore it whenever they set another status than done |
| TaskSafety.DeleteKeepsBoard | backend/app/api/tasks.py:1708-1768 | deletion keeps the graph sound, adds no offender and changes no other task |
| TaskSafety.CreateKeepsBoard | backend/app/api/tasks.py:1444-1493 | creation keeps the graph sound, adds no offender, and its start time agrees unless it is created in progress |
| TaskSafety.StepKeepsBoard | backend/app/api/tasks.py:1427-1768 | each step keeps the invariant and creates no offender but a redirected task |
| TaskSafety.RunIsSafe | backend/app/api/tasks.py:562-630 | over whole runs: the graph stays acyclic, and the offenders are among those at the start and the tasks a lead redirected |
| TaskSafety.DoneOverRuns | backend/app/api/tasks.py:325-443 | over whole runs: a task is done if and only if it was so all along, or has been since a step that created it as done behind done dependencies, or since a PATCH of its own that met every gate of the board as it was then |
| TaskSafety.RunKeepsStartTimes | backend/app/api/tasks.py:2478-2495 | over whole runs start times agree with the status, unless the task was created in progress |
| TaskEffects.StatusAfterPatch | backend/app/api/tasks.py:2435-2505 | for every role: the status is the one asked for, or the old one; only an admin's PATCH of a blocked task that is not staying done ends in the inbox instead |
| TaskEffects.OwnerAfterPatch | backend/app/api/tasks.py:2408-2432 | for every role: who owns the task afterwards; a worker takes it by starting or finishing it and gives it back with inbox or review |
| TaskEffects.TimesAfterPatch | backend/app/api/tasks.py:2478-2495 | for every role: the start time and the previous one; work that starts is stamped, work that stops moves its stamp, a lead only clears it |
| TaskEffects.ModeAfterPatch | backend/app/api/tasks.py:2609-2640 | mode and configuration are those that were sent, or the old ones |
| TaskEffects.DependenciesAfterPatch | backend/app/api/tasks.py:2108-2142 | the dependencies are the ones asked for, each once, or the old ones, and a done task keeps its own |
| TaskEffects.PatchFrame | backend/app/api/tasks.py:562-630 | a PATCH leaves approvals, links, flags, other dependencies and other tasks alone, except that reopening the task parks those that wait for it |
| TaskEffects.CreatedTaskIs | backend/app/api/tasks.py:1444-1493 | a creation adds one row with the fields that were asked for, not started, and its dependencies, each once; nothing else changes |
| TaskEffects.UntouchedTaskStays | backend/app/api/tasks.py:562-630 | over whole runs: between requests for a task its row stays, or it is parked because one of its dependencies was reopened |
| TaskEffects.ClaimLasts | backend/app/api/tasks.py:2421-2432 | over whole runs: a task that a worker started is in progress, owned by that worker and stamped, until the next request for it or until a dependency is reopened |
| TaskAcceptance.WorkerRefusalIs | backend/app/api/tasks.py:2352-2432 | every answer to a worker's PATCH: the first of its reasons for refusal, in order and in terms of the tables, or success |
| TaskAcceptance.LeadRefusalIs | backend/app/api/tasks.py:2248-2349 | every answer to a lead's PATCH, likewise |
| TaskAcceptance.AdminRefusalIs | backend/app/api/tasks.py:2435-2505 | every answer to an admin's PATCH, likewise |
| TaskAcceptance.ReasonsName | backend/app/api/tasks.py:375-415 | refusals that carry a list name exactly the missing dependencies and exactly the checks that do not hold |
| TaskAcceptance.WorkerAcceptedIff | backend/app/api/tasks.py:2352-2432 | a worker's PATCH is accepted if and only if it sets nothing but the status of a task that is free or the worker's own, does not move a blocked task except to the inbox, meets the gates and carries or has a comment on entering review |
| TaskAcceptance.LeadAcceptedIff | backend/app/api/tasks.py:2248-2349 | a lead's PATCH is accepted if and only if it assigns and moves only a task that will not wait, out of review, to done or the inbox, through the gates, with an assignee and dependencies that fit |
| TaskAcceptance.AdminAcceptedIff | backend/app/api/tasks.py:2435-2505 | an admin's PATCH is accepted if and only if tags, dependencies, the gates for the status the task gets and, unless it is sent back, assignee and comment are in order |
| ApprovalRules.LinkedTasksAre | backend/app/services/approval_task_links.py:85-106 | the loaded ids of an approval are those of its link rows, and the first one is its oldest link |
| ApprovalRules.TasksOfAre | backend/app/api/approvals.py:453-459 | the ids an update checks are exactly the tasks the approval concerns, with the fallback to the primary one |
| ApprovalRules.DeletionShrinks | backend/app/api/tasks.py:1727-1745 | deleting a task can only take tasks away from an approval, never add one or change a status |
| ApprovalRules.DeletionKeepsReferences | backend/app/api/tasks.py:1727-1745 | foreign keys hold afterwards, and an approval with links is still linked to its primary task |
| ApprovalRules.InsertionKeepsOnePending | backend/app/api/approvals.py:397-426 | inserting keeps one pending approval per task if there was no conflict |
| ApprovalRules.ResolutionKeepsOnePending | backend/app/api/approvals.py:449-466 | so does a change of status: freely away from pending, and back to it if nothing else is pending |
| ApprovalRules.OtherBoardIff | backend/app/services/approval_task_links.py:156-195 | for tasks of any board: a new pending approval keeps a task to one pending approval across two boards if and only if the same check would have passed on the other board, which nobody asks |
| ApprovalRules.PendingOnTwoBoards | backend/app/api/approvals.py:397-426 | it happens: a task is pending on its own board, and a request on another board that names it is accepted |
| ApprovalService.ConflictIffPending | backend/app/services/approval_task_links.py:144-206 | the two queries name a task if and only if another pending approval concerns it, and name the oldest linked one, or else the oldest one without links |
| ApprovalService.ApprovalStore.PendingConflicts | backend/app/services/approval_task_links.py:144-206 | the dictionary holds for each conflicting task its oldest linked approval, or else its oldest one without links; it is empty if and only if there is no conflict |
| ApprovalService.ApprovalStore.EnsureNoPendingConflicts | backend/app/api/approvals.py:169-190 | refused if and only if some pending approval concerns one of the tasks; the answer lists exactly those tasks |
| ApprovalService.ApprovalStore.CreateApproval | backend/app/api/approvals.py:390-426 | accepted if and only if every named task exists and, for a pending one, nothing else is pending on them; then it has the status asked for and names exactly these tasks, the first as its primary one, and all else is as it was |
| ApprovalService.ApprovalStore.UpdateApproval | backend/app/api/approvals.py:437-466 | the check runs exactly when a status goes back to pending, with the approval itself excluded; accepted, the approval has the status asked for and nothing else changes |
| ApprovalProtocol.Sorted | backend/app/services/approval_task_links.py:125-141 | locks are taken once per task in ascending order |
| ApprovalProtocol.CommitLeavesOthers | backend/app/services/approval_task_links.py:125-141 | two requests that both passed their check share no existing task |
| ApprovalProtocol.CommitKeeps | backend/app/api/approvals.py:405-426 | a commit keeps the invariant although checks of other requests lie in the past and the status it read may be stale |
| ApprovalProtocol.DeletionKeeps | backend/app/api/tasks.py:1727-1768 | so does the deletion of a task whose row nobody has locked, even for requests that read it before |
| ApprovalProtocol.EventKeeps | backend/app/api/approvals.py:169-466 | every event of every request and every task step keeps it |
| ApprovalProtocol.OnePendingInEveryRun | backend/app/api/approvals.py:169-466 | however the requests interleave, no task ever has two pending approvals |
| ApprovalProtocol.SomeRequestIsFree | backend/app/services/approval_task_links.py:125-141 | when every request in flight asks for its locks in ascending order, one of them finds all its remaining locks free |
| ApprovalProtocol.FreeRequestEnds | backend/app/api/approvals.py:169-190 | such a request ends, answered or refused, in one step per lock and two more, and the others stay as they were |
| ApprovalProtocol.NoDeadlock | backend/app/services/approval_task_links.py:125-141 | after any run whose unchecked creations name their tasks in ascending order, all approval requests in flight can be brought to an end |
| ApprovalProtocol.FallingListDeadlocks | backend/app/api/approvals.py:405-426 | a creation that need not check and whose list falls somewhere deadlocks with a request for a pending approval on the two tasks where it falls |
| ApprovalProtocol.DeadlockStays | backend/app/api/approvals.py:390-466 | no event of any request and no task step ends such a deadlock, except that one of the two gives up |
| ApprovalProtocol.DeadlockIff | backend/app/api/approvals.py:390-426 | two approval requests can deadlock in some run whose unchecked creations name these tasks if and only if the list does not ascend |
| ApprovalProtocol.RunIsBoardRun | backend/app/api/approvals.py:390-466 | seen from the tasks, every interleaving is a run of board steps |
| ApprovalProtocol.DependenciesStaySafe | backend/app/api/tasks.py:1643-1705 | so dependency safety survives the interleaving with approvals |
| ApprovalAnswers.ApprovalOpensGate | backend/app/api/tasks.py:287-350 | after an update the approval that the done gate asks for is there if and only if the update approves one that names the task, or another one is |
| ApprovalAnswers.LastWriteWins | backend/app/api/approvals.py:437-466 | however requests interleave, an approval has the status that was written last, and its first one if nobody wrote it |
| ApprovalAnswers.FreeRequestAnswers | backend/app/api/approvals.py:390-466 | a request that finds its locks free leaves the board that the endpoint leaves when it runs alone: inserted, changed or refused |
| TaskDeletion.DeletionForgetsTask | backend/app/api/tasks.py:1708-1768 | no link, dependency (either end) or approval names the task, and all other links, dependencies and tasks stay |
| TaskDeletion.SurvivorsMove | backend/app/api/tasks.py:1727-1745 | an approval goes if and only if the task was its primary one and no other link is left; a survivor moves to its oldest remaining link and keeps its status, the others are untouched |
| TaskDeletion.TaskTables.DeleteTaskAndRelatedRecords | backend/app/api/tasks.py:1708-1768 | nor does any activity, fingerprint, tag or custom value row, and all other rows stay |
| TaskReads.ShownAsBlockedIff | backend/app/api/tasks.py:2015-2047 | the flag shows blocked if and only if the task is not done and has an undone dependency |
| TaskReads.ReadMeans | backend/app/api/tasks.py:2015-2047 | the answer field by field: the stored row and dependencies, the undone ones as blockers unless the task is done, the flag, the tags and the custom fields |
| TaskReads.TagPlaces | backend/app/api/tasks.py:1181-1236 | the tags come in the order of their assignments |
| TaskReads.TaskReader.ReadOne | backend/app/api/tasks.py:2015-2047 | a single read, stated on the tables alone |
| TaskReads.TaskReader.ReadPage | backend/app/api/tasks.py:1181-1236 | every entry of a page is what reading that task alone gives |
| TaskReads.TaskReader.DependencyStatus | backend/app/services/task_dependencies.py:57-73 | the statuses of the dependencies that exist, and of no others |
| TaskReads.TaskReader.BlockedByIds | backend/app/services/task_dependencies.py:76-82 | a dependency without a status counts as undone; the order is kept |
| CustomFields.FieldStore.SetForCreate | backend/app/api/tasks.py:1009-1051 | accepted if and only if keys are known, values valid and required fields not null; afterwards the task reads its payload over the defaults |
| CustomFields.FieldStore.SetForUpdate | backend/app/api/tasks.py:1054-1113 | the same against what the task reads now; a null takes the row away; other tasks and other fields keep their rows |
| CustomFields.FieldStore.Reject | backend/app/api/tasks.py:927-987 | which of the three refusals is given, with the keys it names |
| CustomFields.FieldStore.ReadAll | backend/app/api/tasks.py:1116-1160 | each task's stored values over the defaults, for any list of tasks |
| CustomFields.ReadsLastWrite | backend/app/api/tasks.py:1009-1160 | after any sequence of updates a field reads what the last accepted payload with that key wrote, the default after a null, and its first value when nobody wrote it |
| CustomFields.RequiredNeverNull | backend/app/api/tasks.py:944-962 | a required field never reads null once its task exists |
| CustomFields.ReadsAreValid | backend/app/api/tasks.py:927-987 | a field reads its first value, its default or a value that its definition accepts |
| CustomFields.RejectedChangesNothing | backend/app/api/tasks.py:927-987 | an unknown field, an invalid value or a required field taken away changes nothing, and every other payload is accepted |
| CustomFields.ChangedRow | backend/app/api/tasks.py:1095-1113 | changing a row in place keeps one row per task and field and changes one value |
| EventStream.EventGenerator.Offer | backend/app/api/tasks.py:1358-1366 | an event is sent if and only if its id is not among the last 2000 sent; queue, set and cursor stay in step with the history |
| EventStream.EventGenerator.Poll | backend/app/api/activity.py:264-273 | one round of the loop, over any rows, in either generator |
| EventStream.PollKeepsSpacing | backend/app/api/tasks.py:1339-1366 | with no assumption on the log: events at most 2000 places apart never share an id |
| EventStream.RepeatsAreFarApart | backend/app/api/tasks.py:1339-1366 | between two sendings of one id lie at least 2000 distinct other events |
| EventStream.SentDeliversNew | backend/app/api/tasks.py:1358-1375 | one poll sends exactly the fetched events that were not sent before, keeping time order |
| EventStream.SendsWhatItFetches | backend/app/api/tasks.py:1333-1376 | over any run of polls, whenever events appear: what is sent is what some poll fetched, each event once and in time order |
| EventStream.LostIff | backend/app/api/tasks.py:1346-1375 | an event visible from `since` on is never sent if and only if a later one had been fetched before it appeared |
| EventStream.LateEventIsLost | backend/app/api/tasks.py:1346-1375 | it happens: two polls are enough, for any two events of different times |
| EventStream.ExactlyOnce | backend/app/api/tasks.py:1333-1376 | over any run of polls every event ever visible from `since` on is sent exactly once, in time order, if and only if none appears after a later one has been fetched |
| EventStream.QuietPollIff | backend/app/api/tasks.py:1346-1366 | on a log that stands still the first poll sends all it fetches, and the second one, whatever the order of its rows, sends nothing if and only if the events at the latest time fit the window |
| EventStream.ExactlyOnceIffFewTies | backend/app/api/tasks.py:1346-1366 | two polls of such a log send no id twice if and only if they do |
| JsonGrammar.ValuePrefix | backend/app/api/skills_marketplace.py:318-321 | decoding a prefix of the text gives the value of the text or nothing, except for a number that reaches the end of the prefix |
| JsonGrammar.CutNumber | backend/app/api/skills_marketplace.py:318-321 | a prefix that ends in a number gives nothing without its first digit, and otherwise a shorter number with the rest of the number behind it |
| JsonReader.StreamingJsonReader.FillBuffer | backend/app/api/skills_marketplace.py:283-291 | the buffer grows by one chunk, and end of file is noticed only by an empty read |
| JsonReader.StreamingJsonReader.SkipWhitespace | backend/app/api/skills_marketplace.py:299-311 | it stops at the next character or at the start of the next chunk, even if that is white space |
| JsonReader.StreamingJsonReader.SkipAndPeek | backend/app/api/skills_marketplace.py:360-361 | skip and peek together reach the next character, or stop one chunk behind the old buffer in a longer run of white space |
| JsonReader.StreamingJsonReader.Refill | backend/app/api/skills_marketplace.py:322-328 | a failed attempt loads one chunk and leaves white space behind; after a blank at the start of a chunk the buffer reaches two chunks further |
| JsonReader.StreamingJsonReader.DecodeNext | backend/app/api/skills_marketplace.py:313-328 | terminates, and decodes the next value of the whole text, or, if a chunk end cuts a number behind its first digit, exactly what lies in front of the first such end |
| JsonReader.StreamingJsonReader.ReadArrayValues | backend/app/api/skills_marketplace.py:358-378 | the entries of the array, whatever the chunks; commas may be missing or repeated |
| JsonReader.StreamingJsonReader.ReadSkillsFromObject | backend/app/api/skills_marketplace.py:380-433 | the entries of all `skills` arrays if no number member is cut, and a refusal if one is |
| JsonReader.StreamingJsonReader.ReadTopLevelEntries | backend/app/api/skills_marketplace.py:343-356 | for any text, valid JSON or not, whose white space runs fit a chunk: what the text holds, and a refusal exactly if a chunk end cuts a number member |
| JsonDocuments.ReadsDocuments | backend/app/api/skills_marketplace.py:343-433 | on every valid JSON document: what the reader returns or that it refuses, case by case |
| JsonDocuments.ReaderAgreesWithWholeText | backend/app/api/skills_marketplace.py:261-270 | on an index document that is the same as parsing the whole text and picking the entries |
| JsonDocuments.DocumentsUncut | backend/app/api/skills_marketplace.py:380-433 | without number members at the top, chunk ends do not matter |
| JsonDocuments.ReadIndex | backend/app/api/skills_marketplace.py:450-461 | the whole chain: on an index the reader returns the picked entries if and only if no number member is cut, and refuses otherwise |
| JsonDocuments.NumbersInChunksOfSix | backend/app/api/skills_marketplace.py:313-328 | three indexes in chunks of six: a cut behind a digit is refused; one behind a minus sign is harmless, and so is one inside a number behind a blank that begins a chunk |
| JsonDocuments.BlanksAtChunkStarts | backend/app/api/skills_marketplace.py:299-328 | when no chunk begins with a blank, white space fits a chunk, and a document is uncut if and only if no chunk ends behind the first digit and in front of the end of a number member that the reader comes to |
| JsonDocuments.CutNumbersAreMisread | backend/app/api/skills_marketplace.py:318-321 | a cut number is decoded as the number of the text if and only if the buffer holds all of it |
| JsonText.TreeIsRead | backend/app/api/skills_marketplace.py:313-321 | every text of a JSON value, in any spelling of strings and numbers and with any white space, is decoded to its meaning, up to its end |
| JsonText.TreeOf | backend/app/api/skills_marketplace.py:313-321 | nothing else is decoded: behind every decoded value lies such a text with that meaning |
| JsonRoundTrip.ParsesExactly | backend/app/api/skills_marketplace.py:261-270 | parsing a whole text gives a value if and only if the text is a spelling of that value with white space around it |
| JsonRoundTrip.ReadWrittenIndex | backend/app/api/skills_marketplace.py:380-433 | any text of an object whose one member called `skills` lists objects is read as that list if no chunk end cuts a number member, and refused otherwise |
| JsonRoundTrip.PrintAndRead | backend/app/api/skills_marketplace.py:450-461 | a printed index, `"skills"` and any list of objects in any spelling, is read back as that list for every chunk size that no white space run exceeds |
| JsonRoundTrip.PrintAndReadList | backend/app/api/skills_marketplace.py:343-356 | so is a list on its own |
| JsonRoundTrip.LooseListIsRead | backend/app/api/skills_marketplace.py:358-378 | objects with any commas and white space between them are read as their list |
| TreeUrl.Find | backend/app/api/skills_marketplace.py:226 | the first occurrence, or none |
| TreeUrl.MarkerPlace | backend/app/api/skills_marketplace.py:225-231 | the marker is found at its own place if and only if the path does not hold it and does not end in all of it but the last slash |
| TreeUrl.ParsePrinted | backend/app/api/skills_marketplace.py:214-224 | whatever branch and path follow, parsing gives back scheme, host and path up to the marker |
| TreeUrl.RoundTripIff | backend/app/api/skills_marketplace.py:214-233 | the base of a printed tree URL is the normalized repository if and only if its path is not empty, holds no marker, does not end in `/tree`, and normalizing once more changes nothing |
| TreeUrl.TreeUrlIs | backend/app/api/skills_marketplace.py:214-220 | the printed URL is repository, marker, branch (`main` for a blank one) and, behind one slash, the path, whatever white space and leading slashes came with them |
| TreeUrl.NormalizedIs | backend/app/api/skills_marketplace.py:159-165 | white space around a repository, slashes behind it and one `.git` are dropped and nothing else |
| TreeUrl.BuildSkillCountByRepo | backend/app/api/skills_marketplace.py:236-243 | the loop counts, for every repository, the skills whose base it is |
| TreeUrl.SkillCountIsExact | backend/app/api/skills_marketplace.py:756-758 | a `skill_count` is the number of skills printed under that repository |
| PackSync.Collect | backend/app/api/skills_marketplace.py:557-584 | discovery keeps one candidate per URL, the last one |
| PackSync.LastIsLast | backend/app/api/skills_marketplace.py:557-584 | of the entries with one URL the last one counts |
| PackSync.SkillRecord.ApplyUpdates | backend/app/api/skills_marketplace.py:919-943 | the row takes the candidate's fields, and the answer says whether any differed |
| PackSync.Marketplace.Sync | backend/app/api/skills_marketplace.py:1327-1366 | the loop upserts every candidate in place and counts what it created and changed |
| PackSync.UpsertIs | backend/app/api/skills_marketplace.py:1334-1358 | afterwards the URLs are the old and the discovered ones, each discovered URL holds its candidate's fields, one by one, and the others are untouched |
| PackSync.CreatedAreNew | backend/app/api/skills_marketplace.py:1332-1352 | `created` is the number of discovered URLs the catalogue did not have |
| PackSync.UpdatedAreStale | backend/app/api/skills_marketplace.py:1354-1358 | `updated` is the number of discovered URLs whose fields in the catalogue were not their candidate's |
| PackSync.CountsFit | backend/app/api/skills_marketplace.py:1360-1366 | created plus updated is at most synced |
| PackSync.SecondSyncIsQuiet | backend/app/api/skills_marketplace.py:1327-1366 | a second identical sync creates and updates nothing |
| Calendar.InstantOrderIsFieldOrder | backend/app/api/metrics.py:120 | comparing time stamps as numbers is comparing year, month, day and time of day |
| Calendar.OrdinalIsInjective | backend/app/api/metrics.py:91-99 | a date is determined by its day number |
| Calendar.TwelveMonths | backend/app/api/metrics.py:69 | twelve months have 365 days, plus one if the February among them is in a leap year |
| Metrics.ResolveRange | backend/app/api/metrics.py:59-78 | a range ends now, has the bucket of its key and is as long as its key says |
| Metrics.ComparisonRange | backend/app/api/metrics.py:81-88 | the comparison range is as long and ends where the range starts |
| Metrics.BucketIsInterval | backend/app/api/metrics.py:91-114 | a time belongs to a bucket if and only if it lies between its start and the next bucket's start, for hours, days, weeks and months |
| Metrics.StartIsBucket | backend/app/api/metrics.py:91-99 | the start of a bucket is its own start and not later than the time |
| Metrics.NextIsBucket | backend/app/api/metrics.py:102-114 | the next cursor is a bucket start again, and later |
| Metrics.BuildBuckets | backend/app/api/metrics.py:117-123 | the loop terminates with the list of buckets of the range |
| Metrics.RangeIsCovered | backend/app/api/metrics.py:117-123 | the list increases strictly, holds only bucket starts, and the bucket of every time in the range occurs in it exactly once |
| Metrics.SeriesFromMapping | backend/app/api/metrics.py:126-138 | one point per bucket, in order, with zero for what the mapping lacks |
| Metrics.WipSeriesFromMapping | backend/app/api/metrics.py:141-161 | the same for the four status counts |
| Metrics.SeriesConserves | backend/app/api/metrics.py:126-138 | the points add up to the values of the mapping at its buckets |
| Metrics.RangeSeriesConserves | backend/app/api/metrics.py:126-138 | nothing is lost of a mapping keyed by buckets of times in the range |
| Metrics.WipSeriesConserves | backend/app/api/metrics.py:141-161 | nor does a series of work in progress lose anything, in any count or sum of counts |
| Metrics.CountsAddUp | backend/app/api/metrics.py:164-183 | a throughput series adds up to the number of rows in the range |
| Metrics.PointCountsRows | backend/app/api/metrics.py:164-183 | each point is the number of rows from the start of its bucket to the start of the next one |
| Metrics.HourCount | backend/app/api/metrics.py:62 | 24 hours give exactly 25 buckets |
| Metrics.DayCount | backend/app/api/metrics.py:63-66 | 3, 7, 14 and 30 days give exactly 4, 8, 15 and 31 buckets |
| Metrics.QuarterWeekCount | backend/app/api/metrics.py:67 | 90 days give 13 weeks if they start on a Monday, and 14 otherwise |
| Metrics.HalfYearWeekCount | backend/app/api/metrics.py:68 | 180 days give 26 weeks if they start on a Monday or Tuesday, and 27 otherwise |
| Metrics.YearCount | backend/app/api/metrics.py:69 | a year gives 12 months if and only if it ends on the last day of a month and a 29 February lies in it after its first day, and 13 otherwise |
| PromptEvolution.PromptPack.AvgScoreForVersion | backend/app/api/prompt_evolution.py:32-54 | the mean over the board's scored rows of the version, nothing without such rows |
| PromptEvolution.MeanIff | backend/app/api/prompt_evolution.py:32-54 | the score of a version is the one number from which the scores of exactly its scored rows deviate by nothing in total; there is none if and only if it has no such row |
| PromptEvolution.MeanIsBetween | backend/app/api/prompt_evolution.py:32-54 | it lies between a lowest and a highest of these scores |
| PromptEvolution.OnlyScoredRowsMatter | backend/app/api/prompt_evolution.py:32-54 | the order of the rows, rows of other versions and null scores do not matter |
| PromptEvolution.PromptPack.CreateVersion | backend/app/api/prompt_evolution.py:125-151 | the next number; the first version becomes champion, later ones challenger if asked |
| PromptEvolution.PromptPack.PromoteChallenger | backend/app/api/prompt_evolution.py:158-224 | refused with the given reason and no effect, or logged with champion and challenger moved |
| PromptEvolution.PromotionComparesMeans | backend/app/api/prompt_evolution.py:187-211 | which of the two refusals an unforced promotion meets, or none, in terms of the means of champion and target |
| PromptEvolution.RunIsConsistent | backend/app/api/prompt_evolution.py:125-224 | in every run versions are numbered 1 to n, champion and challenger never coincide, and replaying the log from the first version gives the champion |
| PromptEvolution.PromotionsClimb | backend/app/api/prompt_evolution.py:187-224 | k unforced promotions raise the champion's score by at least k times the minimum delta |
| PromptEvolution.NoChampionTwice | backend/app/api/prompt_evolution.py:187-224 | with a positive delta no version becomes champion twice, so there are fewer promotions than versions |
| PromptEvolution.ChampionMayRepeatIff | backend/app/api/prompt_evolution.py:200-211 | the champion can be promoted over itself, unforced, if and only if the minimum delta is not positive |
| PromptEvolution.NeverTwiceIff | backend/app/api/prompt_evolution.py:187-224 | over all scored runs: no version becomes champion twice if and only if the minimum delta is positive |

## Left out

- Requests are whole: one PATCH, one creation and one deletion is one atomic step, so the invariants of boards are about the ends of requests. The admin and worker paths commit twice (tasks.py:2554 and 2688); what another request sees in between is not part of this model. Approval requests are split into their steps, but a deletion inside that protocol is one step that waits for row locks.
- ApprovalProtocol.NoDeadlock: is about approval requests among themselves, with the exclusive locks of their checks and the shared locks of their foreign keys. The row locks that a PATCH takes on a task and its dependents (tasks.py:562-630), those of a deletion, and the database's own deadlock detection are not part of this model; a task request is one step.
- ApprovalProtocol.OnePendingInEveryRun: is about the approvals of one board (lines 163 and 182 of approval_task_links.py filter on the board; see `ApprovalRules.OtherBoardIff`). New ids are assumed unused (they are random UUIDs), and a lock on a row that does not exist is no lock, as in the database.
- EventStream.ExactlyOnce: assumes that at most 2000 events share a time and that an id names one event; that none appears late is its condition, not an assumption. `PollKeepsSpacing` and `RepeatsAreFarApart` assume nothing. Disconnection ends a run and is left out.
- JsonReader.StreamingJsonReader.ReadTopLevelEntries: says only that it terminates when a white space run is longer than a chunk; `_peek` can then answer a blank, exactly as `SkipAndPeek` says.
- JsonGrammar.ValuePrefix: strings are sequences of code units, so an escaped surrogate pair stays two units, and numbers keep their text instead of a rounded value. Python's integer digit limit and recursion limit are left out.
- TreeUrl.RoundTripIff: covers repository URLs of printable ASCII hosts without brackets, query and fragment; `urlparse` raises on some other hosts, which the model does not.
- TaskSafety.RunIsSafe: background services outside these endpoints that also write tasks (task_mode_execution and others) take no steps in a run. Board flags and approvals may change arbitrarily between steps.
- The check of comments on entering review is an oracle for "the latest comment of this agent since then is not blank"; the GSD transition check, tag validation and custom field validation inside a PATCH are arbitrary guards. Custom fields have their own model; values of one field are validated by an arbitrary predicate.
- Activity rows that requests write, notifications, queueing of task modes, titles, timestamps of updates and other descriptive columns have no effect on the modelled state and are left out, as are HTTP, authentication and schema validation.
- CustomFields.ReadsLastWrite: keeps the field definitions fixed; two concurrent updates of one task rely on the unique constraint of the table.
- PromptEvolution.PromotionsClimb: assumes that champion and target are scored and that scores stay what they are; scores are exact numbers, not rounded ones. Two concurrent creations of versions may take the same number.
- Metrics.ResolveRange: time stamps before the first day of year 1 and after year 9999 raise in the original; here the calendar has no end, and ranges start on or after that first day. The week of that first day starts on it, which is a Monday.
- Metrics.CountsAddUp: `date_trunc` is taken to be `_bucket_start`. Cycle time, error rate and the work-in-progress query are the same shape with other columns.
- PackSync.Collect: the order in which candidates are returned is not stated; nothing after it depends on the order.
- Cloning repositories, reading skill files, inferring names, installing skills, quotas, memberships, change requests, GSD runs, webhooks and the frontend are not part of this model.
