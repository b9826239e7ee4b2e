/** The task handlers: create, list, reorder, edit, delete and hand over a task. */
module TaskController {
  import opened Common
  import opened Errors
  import opened Strings
  import opened Collections
  import opened Models
  import opened TaskModel
  import opened Store
  import opened Presence

  const NotBoardMember := "you are not board member"
  const AllValues := "Please provide all value"
  const Assigned := "task was assigned"

  /** The row `createTask` inserts, before the creation hook numbers it. */
  function Unnumbered(description: string, board: Id, column: Id, assignee: Id): Task
  {
    Task(description, 0, 0, board, column, assignee)
  }

  /** `createTask`: a member of the board adds a task there, assigned to themself. */
  method CreateTask(st: Store, caller: Option<Id>, description: string, boardId: Option<Id>, columnId: Option<Id>)
    returns (r: Result<Id>)
    requires st.Valid()
    modifies st
    ensures st.Valid()
    ensures r.Err? ==> st.Tables() == old(st.Tables())
    ensures description == "" || columnId.None? || boardId.None? || caller.None? ==>
      r == Err(BadRequest(AllValues))
    ensures (description != "" && columnId.Some? && boardId.Some? && caller.Some?
             && !IsMember(old(st.members), caller.value, boardId.value)) ==>
      r == Err(UnAuthenticated(NotBoardMember))
    ensures (description != "" && columnId.Some? && boardId.Some? && caller.Some?
             && IsMember(old(st.members), caller.value, boardId.value)) ==>
      && r == Ok(old(st.nextId))
      && r.value !in old(st.tasks)
      && st.Tables() == old(st.Tables()).(tasks := old(st.tasks)[r.value :=
           BeforeCreate(old(st.tasks), Unnumbered(description, boardId.value, columnId.value, caller.value))])
  {
    if description == "" || columnId.None? || boardId.None? || caller.None? {
      return Err(BadRequest(AllValues));
    }
    if !IsMember(st.members, caller.value, boardId.value) {
      return Err(UnAuthenticated(NotBoardMember));
    }
    var task := BeforeCreate(st.tasks, Unnumbered(description, boardId.value, columnId.value, caller.value));
    var id := st.InsertTask(task);
    r := Ok(id);
  }

  /** Sort key for listing tasks: `order: [["position", "ASC"]]`. */
  function PositionOf(tasks: map<Id, Task>, id: Id): int
  {
    if id in tasks then tasks[id].position else 0
  }

  /** The ids of the tasks on a board. */
  function TasksOn(tasks: map<Id, Task>, boardId: Id): (s: set<Id>)
    ensures forall id :: id in s <==> id in tasks && tasks[id].boardId == boardId
  {
    set id | id in tasks && tasks[id].boardId == boardId
  }

  /** Ids sorted by `PositionOf` are sorted by position once they are all tasks. */
  lemma {:induction false} ByPosition(tasks: map<Id, Task>, ids: seq<Id>)
    requires forall i :: 0 <= i < |ids| ==> ids[i] in tasks
    requires SortedBy(ids, (id: Id) => PositionOf(tasks, id))
    ensures forall i, j :: 0 <= i < j < |ids| ==> tasks[ids[i]].position <= tasks[ids[j]].position
  {
    var key := (id: Id) => PositionOf(tasks, id);
    forall i, j | 0 <= i < j < |ids| ensures tasks[ids[i]].position <= tasks[ids[j]].position {
      assert key(ids[i]) <= key(ids[j]);
    }
  }

  /** `getTasksByBoardId`: a member sees every task of the board, by ascending position. */
  function GetTasksByBoardId(members: map<Id, BoardMember>, tasks: map<Id, Task>, caller: Id, boardId: Id)
    : (r: Result<seq<Id>>)
    ensures r.Err? <==> !IsMember(members, caller, boardId)
    ensures r.Err? ==> r.error == UnAuthenticated(NotBoardMember)
    ensures r.Ok? ==> Distinct(r.value)
    ensures r.Ok? ==> forall id :: id in r.value <==> id in tasks && tasks[id].boardId == boardId
    ensures r.Ok? ==> forall i, j :: 0 <= i < j < |r.value| ==>
      tasks[r.value[i]].position <= tasks[r.value[j]].position
  {
    if !IsMember(members, caller, boardId) then Err(UnAuthenticated(NotBoardMember))
    else
      var ids := Ordered(TasksOn(tasks, boardId), (id: Id) => PositionOf(tasks, id));
      assert forall i :: 0 <= i < |ids| ==> ids[i] in tasks;
      ByPosition(tasks, ids);
      Ok(ids)
  }

  /** One element of `tasks_order`. */
  datatype OrderItem = OrderItem(id: Id, boardId: Id, columnId: Id)

  /** The last index of `order` naming task `id`. */
  function LastIndexOf(order: seq<OrderItem>, id: Id): (r: Option<nat>)
    ensures r.Some? ==> r.value < |order| && order[r.value].id == id
    ensures r.Some? ==> forall k :: r.value < k < |order| ==> order[k].id != id
    ensures r.None? ==> forall k :: 0 <= k < |order| ==> order[k].id != id
  {
    if |order| == 0 then None
    else if order[|order| - 1].id == id then Some(|order| - 1)
    else LastIndexOf(order[..|order| - 1], id)
  }

  /** The tasks after `Task.update({ position: i + 1, column_id }, { where: { id } })` was run
      for each element, first to last: a task takes the position and column of the last element naming it. */
  function Reordered(tasks: map<Id, Task>, order: seq<OrderItem>): map<Id, Task>
  {
    map id | id in tasks :: Placed(tasks[id], order, id)
  }

  /** Task `id` after the updates of `order`. */
  function Placed(task: Task, order: seq<OrderItem>, id: Id): Task
  {
    match LastIndexOf(order, id)
    case None => task
    case Some(i) => task.(position := i + 1, columnId := order[i].columnId)
  }

  lemma ReorderedStep(tasks: map<Id, Task>, order: seq<OrderItem>, i: nat)
    requires i < |order|
    ensures var before := Reordered(tasks, order[..i]);
      var item := order[i];
      Reordered(tasks, order[..i + 1]) ==
        if item.id in before then before[item.id := before[item.id].(position := i + 1, columnId := item.columnId)]
        else before
  {
    var before := Reordered(tasks, order[..i]);
    var after := Reordered(tasks, order[..i + 1]);
    var item := order[i];
    var expected := if item.id in before then before[item.id := before[item.id].(position := i + 1, columnId := item.columnId)]
                    else before;
    forall id | id in tasks ensures after[id] == expected[id] {
      LastIndexStep(order, i, id);
      assert after[id] == Placed(tasks[id], order[..i + 1], id);
      assert before[id] == Placed(tasks[id], order[..i], id);
    }
    assert after.Keys == expected.Keys;
  }

  /** Appending an element makes it the last naming its task. */
  lemma LastIndexStep(order: seq<OrderItem>, i: nat, id: Id)
    requires i < |order|
    ensures LastIndexOf(order[..i + 1], id) == if order[i].id == id then Some(i) else LastIndexOf(order[..i], id)
  {
    var p := order[..i + 1];
    assert p[..|p| - 1] == order[..i];
  }

  /** Reordering changes no row's existence, board, description, sequence or assignee. */
  lemma ReorderKeepsRows(tasks: map<Id, Task>, order: seq<OrderItem>)
    ensures Reordered(tasks, order).Keys == tasks.Keys
    ensures forall id :: id in tasks ==>
      Reordered(tasks, order)[id] == tasks[id].(position := Reordered(tasks, order)[id].position,
                                                columnId := Reordered(tasks, order)[id].columnId)
  {
  }

  /** The task named at index `i`, when no later element names it again, lands at position `i + 1`
      in the column that element gives. */
  lemma ReorderPlacesNamedTask(tasks: map<Id, Task>, order: seq<OrderItem>, i: nat)
    requires i < |order| && order[i].id in tasks
    requires forall k :: i < k < |order| ==> order[k].id != order[i].id
    ensures Reordered(tasks, order)[order[i].id].position == i + 1
    ensures Reordered(tasks, order)[order[i].id].columnId == order[i].columnId
  {
    var li := LastIndexOf(order, order[i].id);
    assert li == Some(i);
  }

  /** A task no element names keeps its position and column. */
  lemma ReorderLeavesUnnamed(tasks: map<Id, Task>, order: seq<OrderItem>, id: Id)
    requires id in tasks
    requires forall k :: 0 <= k < |order| ==> order[k].id != id
    ensures Reordered(tasks, order)[id] == tasks[id]
  {
  }

  /** Submitting the same order twice gives the same positions as submitting it once. */
  lemma ReorderIdempotent(tasks: map<Id, Task>, order: seq<OrderItem>)
    ensures Reordered(Reordered(tasks, order), order) == Reordered(tasks, order)
  {
  }

  lemma ReorderKeepsConsistent(db: Db, next: Id, order: seq<OrderItem>)
    requires Consistent(db, next)
    ensures Consistent(db.(tasks := Reordered(db.tasks, order)), next)
  {
    ReorderKeepsRows(db.tasks, order);
  }

  /** `updateTasksOrder`: a member renumbers the tasks named in `tasks_order` by their index.
      The batch is refused as a whole when an element names another board. */
  method UpdateTasksOrder(st: Store, caller: Option<Id>, boardId: Id, tasksOrder: Option<seq<OrderItem>>)
    returns (r: Result<string>)
    requires st.Valid()
    modifies st
    ensures st.Valid()
    ensures r.Err? ==> st.Tables() == old(st.Tables())
    ensures tasksOrder.None? || |tasksOrder.value| == 0 || caller.None? ==> r == Err(NotFound(AllValues))
    ensures (tasksOrder.Some? && |tasksOrder.value| > 0 && caller.Some?
             && !IsMember(old(st.members), caller.value, boardId)) ==>
      r == Err(UnAuthenticated(NotBoardMember))
    ensures (tasksOrder.Some? && |tasksOrder.value| > 0 && caller.Some?
             && IsMember(old(st.members), caller.value, boardId)
             && exists k :: 0 <= k < |tasksOrder.value| && tasksOrder.value[k].boardId != boardId) ==>
      r == Err(UnAuthenticated("tasks order is not valid"))
    ensures (tasksOrder.Some? && |tasksOrder.value| > 0 && caller.Some?
             && IsMember(old(st.members), caller.value, boardId)
             && forall k :: 0 <= k < |tasksOrder.value| ==> tasksOrder.value[k].boardId == boardId) ==>
      && r == Ok("updated tasks order")
      && st.Tables() == old(st.Tables()).(tasks := Reordered(old(st.tasks), tasksOrder.value))
  {
    if tasksOrder.None? || |tasksOrder.value| == 0 || caller.None? {
      return Err(NotFound(AllValues));
    }
    if !IsMember(st.members, caller.value, boardId) {
      return Err(UnAuthenticated(NotBoardMember));
    }
    var order := tasksOrder.value;
    if exists k :: 0 <= k < |order| && order[k].boardId != boardId {
      return Err(UnAuthenticated("tasks order is not valid"));
    }
    ghost var start := st.Tables();
    assert order[..0] == [];
    assert Reordered(start.tasks, order[..0]) == start.tasks;
    var i := 0;
    while i < |order|
      invariant 0 <= i <= |order|
      invariant st.tasks == Reordered(start.tasks, order[..i])
      invariant st.Tables() == start.(tasks := st.tasks)
      invariant st.nextId == old(st.nextId)
    {
      var item := order[i];
      ReorderedStep(start.tasks, order, i);
      if item.id in st.tasks {
        st.tasks := st.tasks[item.id := st.tasks[item.id].(position := i + 1, columnId := item.columnId)];
      }
      i := i + 1;
    }
    assert order[..|order|] == order;
    ReorderKeepsConsistent(start, st.nextId, order);
    r := Ok("updated tasks order");
  }

  /** `updateTaskDescription`: a member rewrites one task's description. */
  method UpdateTaskDescription(st: Store, caller: Id, taskId: Id, description: string) returns (r: Result<string>)
    requires st.Valid()
    modifies st
    ensures st.Valid()
    ensures r.Err? ==> st.Tables() == old(st.Tables())
    ensures description == "" ==> r == Err(BadRequest("Please provide task description"))
    ensures description != "" && taskId !in old(st.tasks) ==>
      r == Err(NotFound("Not found task with id " + NatText(taskId)))
    ensures (description != "" && taskId in old(st.tasks)
             && !IsMember(old(st.members), caller, old(st.tasks)[taskId].boardId)) ==>
      r == Err(UnAuthenticated(NotBoardMember))
    ensures (description != "" && taskId in old(st.tasks)
             && IsMember(old(st.members), caller, old(st.tasks)[taskId].boardId)) ==>
      && r == Ok(" updated your task description")
      && st.Tables() == old(st.Tables()).(tasks := old(st.tasks)[taskId :=
           old(st.tasks)[taskId].(description := description)])
  {
    if description == "" {
      return Err(BadRequest("Please provide task description"));
    }
    if taskId !in st.tasks {
      return Err(NotFound("Not found task with id " + NatText(taskId)));
    }
    var task := st.tasks[taskId];
    if !IsMember(st.members, caller, task.boardId) {
      return Err(UnAuthenticated(NotBoardMember));
    }
    st.tasks := st.tasks[taskId := task.(description := description)];
    r := Ok(" updated your task description");
  }

  /** `deleteTaskById`: a member destroys a task and every assignment of it. */
  method DeleteTaskById(st: Store, caller: Option<Id>, taskId: Id) returns (r: Result<string>)
    requires st.Valid()
    modifies st
    ensures st.Valid()
    ensures r.Err? ==> st.Tables() == old(st.Tables())
    ensures caller.None? ==> r == Err(NotFound(AllValues))
    ensures caller.Some? && taskId !in old(st.tasks) ==> r == Err(NotFound("Not found your task"))
    ensures (caller.Some? && taskId in old(st.tasks)
             && !IsMember(old(st.members), caller.value, old(st.tasks)[taskId].boardId)) ==>
      r == Err(UnAuthenticated("you is not board member"))
    ensures (caller.Some? && taskId in old(st.tasks)
             && IsMember(old(st.members), caller.value, old(st.tasks)[taskId].boardId)) ==>
      && r == Ok("Deleted your task")
      && st.Tables() == old(st.Tables()).(tasks := old(st.tasks) - {taskId},
                                           assignments := WithoutTask(old(st.assignments), taskId))
  {
    if caller.None? {
      return Err(NotFound(AllValues));
    }
    if taskId !in st.tasks {
      return Err(NotFound("Not found your task"));
    }
    if !IsMember(st.members, caller.value, st.tasks[taskId].boardId) {
      return Err(UnAuthenticated("you is not board member"));
    }
    DeleteTaskCascade(st.assignments, st.tasks, taskId);
    st.assignments := WithoutTask(st.assignments, taskId);
    st.tasks := st.tasks - {taskId};
    r := Ok("Deleted your task");
  }

  /** How `assignToMember` resolves its guards. */
  datatype Handoff = Refuse(error: ApiError) | AlreadyAssigned | HandOver(recipient: Id)

  /** The guards of `assignToMember`, in the order the handler runs them. The "already the assignee"
      answer comes before both membership checks. */
  function CheckHandoff(db: Db, caller: Option<Id>, taskId: Id, recipientEmail: string): (h: Handoff)
    // Missing body field or caller.
    ensures h == Refuse(BadRequest(AllValues)) <==> recipientEmail == "" || caller.None?
    // Unknown task.
    ensures h == Refuse(NotFound("Not found your task")) <==>
      recipientEmail != "" && caller.Some? && taskId !in db.tasks
    // The recipient already holds the task.
    ensures h.AlreadyAssigned? <==>
      recipientEmail != "" && caller.Some? && taskId in db.tasks
      && UserByEmail(db.users, recipientEmail) == Some(db.tasks[taskId].assigneeId)
    // No user has the recipient's e-mail.
    ensures h == Refuse(NotFound("Not found recipient user")) <==>
      recipientEmail != "" && caller.Some? && taskId in db.tasks
      && UserByEmail(db.users, recipientEmail).None?
    // The caller is not a member of the task's board.
    ensures h == Refuse(UnAuthenticated(NotBoardMember)) <==>
      recipientEmail != "" && caller.Some? && taskId in db.tasks
      && UserByEmail(db.users, recipientEmail).Some?
      && UserByEmail(db.users, recipientEmail).value != db.tasks[taskId].assigneeId
      && !IsMember(db.members, caller.value, db.tasks[taskId].boardId)
    // The recipient is not a member of the task's board.
    ensures h == Refuse(UnAuthenticated("recipient user is not board member")) <==>
      recipientEmail != "" && caller.Some? && taskId in db.tasks
      && UserByEmail(db.users, recipientEmail).Some?
      && UserByEmail(db.users, recipientEmail).value != db.tasks[taskId].assigneeId
      && IsMember(db.members, caller.value, db.tasks[taskId].boardId)
      && !IsMember(db.members, UserByEmail(db.users, recipientEmail).value, db.tasks[taskId].boardId)
    // Every guard passed: the task goes to the user with that e-mail.
    ensures h.HandOver? <==>
      recipientEmail != "" && caller.Some? && taskId in db.tasks
      && UserByEmail(db.users, recipientEmail).Some?
      && UserByEmail(db.users, recipientEmail).value != db.tasks[taskId].assigneeId
      && IsMember(db.members, caller.value, db.tasks[taskId].boardId)
      && IsMember(db.members, UserByEmail(db.users, recipientEmail).value, db.tasks[taskId].boardId)
    ensures h.HandOver? ==>
      && h.recipient == UserByEmail(db.users, recipientEmail).value
      && h.recipient in db.users && db.users[h.recipient].email == recipientEmail
  {
    if recipientEmail == "" || caller.None? then Refuse(BadRequest(AllValues))
    else if taskId !in db.tasks then Refuse(NotFound("Not found your task"))
    else
      var task := db.tasks[taskId];
      var recipient := UserByEmail(db.users, recipientEmail);
      if recipient.Some? && task.assigneeId == recipient.value then AlreadyAssigned
      else if recipient.None? then Refuse(NotFound("Not found recipient user"))
      else if !IsMember(db.members, caller.value, task.boardId) then Refuse(UnAuthenticated(NotBoardMember))
      else if !IsMember(db.members, recipient.value, task.boardId) then
        Refuse(UnAuthenticated("recipient user is not board member"))
      else HandOver(recipient.value)
  }

  /** The assignment rows for (assignee, task). */
  function PairRows(assignments: map<Id, Assignment>, assignee: Id, task: Id): set<Id>
  {
    set a | a in assignments && assignments[a].assigneeId == assignee && assignments[a].taskId == task
  }

  /** The tables after a hand-over of `taskId` from its assignee to `recipient` by `caller`:
      the task changes assignee; unless the caller assigns themself, the row for (recipient, task)
      is replaced by a fresh one with id `newId`. */
  function HandedOver(db: Db, caller: Id, taskId: Id, recipient: Id, newId: Id, now: nat): Db
    requires taskId in db.tasks
  {
    var task := db.tasks[taskId];
    var tasks := db.tasks[taskId := task.(assigneeId := recipient)];
    if recipient == caller then db.(tasks := tasks)
    else db.(tasks := tasks,
             assignments := (db.assignments - PairRows(db.assignments, recipient, taskId))
                              [newId := NewAssignment(recipient, caller, taskId, task.boardId, now)])
  }

  /** A hand-over gives the task to the recipient and leaves every other task as it was. */
  lemma HandOverTasks(db: Db, caller: Id, taskId: Id, recipient: Id, newId: Id, now: nat)
    requires taskId in db.tasks
    ensures var after := HandedOver(db, caller, taskId, recipient, newId, now);
      && after.tasks.Keys == db.tasks.Keys
      && after.tasks[taskId] == db.tasks[taskId].(assigneeId := recipient)
      && (forall t :: t in db.tasks && t != taskId ==> after.tasks[t] == db.tasks[t])
      && after == db.(tasks := after.tasks, assignments := after.assignments)
  {
    HandOverShape(db, caller, taskId, recipient, newId, now);
  }

  /** Unless the caller took the task themself, exactly one assignment row exists for
      (recipient, task) afterwards, sent by the caller on the task's board; rows of other pairs stay. */
  lemma {:induction false} HandOverRows(db: Db, caller: Id, taskId: Id, recipient: Id, newId: Id, now: nat)
    requires taskId in db.tasks && newId !in db.assignments
    ensures var after := HandedOver(db, caller, taskId, recipient, newId, now);
      && (recipient == caller ==> after.assignments == db.assignments)
      && (recipient != caller ==>
            && PairRows(after.assignments, recipient, taskId) == {newId}
            && after.assignments[newId] == NewAssignment(recipient, caller, taskId, db.tasks[taskId].boardId, now))
      && (forall a :: a in db.assignments
            && (db.assignments[a].assigneeId != recipient || db.assignments[a].taskId != taskId)
            ==> a in after.assignments && after.assignments[a] == db.assignments[a])
  {
    var after := HandedOver(db, caller, taskId, recipient, newId, now);
    HandOverShape(db, caller, taskId, recipient, newId, now);
    if recipient != caller {
      forall a | a in PairRows(after.assignments, recipient, taskId) ensures a == newId {
      }
    }
  }

  /** With pairs unique, a (assignee, task) pair has at most one row. */
  lemma SinglePairRow(assignments: map<Id, Assignment>, assignee: Id, task: Id, a: Id)
    requires AssignmentPairsUnique(assignments) && a in PairRows(assignments, assignee, task)
    ensures PairRows(assignments, assignee, task) == {a}
  {
  }

  /** A hand-over keeps the tables consistent. */
  lemma {:induction false} HandOverConsistent(db: Db, caller: Id, taskId: Id, recipient: Id, newId: Id, now: nat)
    requires Consistent(db, newId) && taskId in db.tasks
    ensures recipient == caller ==> Consistent(HandedOver(db, caller, taskId, recipient, newId, now), newId)
    ensures Consistent(HandedOver(db, caller, taskId, recipient, newId, now), newId + 1)
  {
    var after := HandedOver(db, caller, taskId, recipient, newId, now);
    HandOverShape(db, caller, taskId, recipient, newId, now);
    ReassignedTaskKeeps(db.assignments, db.tasks, taskId, recipient, newId);
    if recipient == caller {
      StillConsistent(db, after, newId, newId);
      StillConsistent(db, after, newId, newId + 1);
    } else {
      var row := NewAssignment(recipient, caller, taskId, db.tasks[taskId].boardId, now);
      ReplacedPairRow(db.assignments, after.tasks, recipient, taskId, newId, row);
      StillConsistent(db, after, newId, newId + 1);
    }
  }

  /** Only the tasks and the assignments differ between two tables. */
  ghost predicate SameOtherTables(db: Db, after: Db)
  {
    after.users == db.users && after.boards == db.boards && after.columns == db.columns
    && after.members == db.members && after.invitations == db.invitations
  }

  /** The same tasks, each on the same board. */
  ghost predicate SameTaskBoards(tasks: map<Id, Task>, after: map<Id, Task>)
  {
    after.Keys == tasks.Keys && forall t :: t in after ==> after[t].boardId == tasks[t].boardId
  }

  /** `HandedOver` table by table; this only splits the proofs of the hand-over lemmas and states
      no property of its own. */
  lemma HandOverShape(db: Db, caller: Id, taskId: Id, recipient: Id, newId: Id, now: nat)
    requires taskId in db.tasks
    ensures var after := HandedOver(db, caller, taskId, recipient, newId, now);
      var kept := db.assignments - PairRows(db.assignments, recipient, taskId);
      var row := NewAssignment(recipient, caller, taskId, db.tasks[taskId].boardId, now);
      && SameOtherTables(db, after)
      && after.tasks == db.tasks[taskId := db.tasks[taskId].(assigneeId := recipient)]
      && (recipient == caller ==> after.assignments == db.assignments)
      && (recipient != caller ==> after.assignments == kept[newId := row])
  {
  }

  /** Changing a task's assignee keeps the assignments pointing at tasks of their boards. */
  lemma ReassignedTaskKeeps(assignments: map<Id, Assignment>, tasks: map<Id, Task>, taskId: Id, recipient: Id, next: Id)
    requires taskId in tasks && AssignmentsReferToTasks(assignments, tasks)
    ensures var after := tasks[taskId := tasks[taskId].(assigneeId := recipient)];
      AssignmentsReferToTasks(assignments, after) && SameTaskBoards(tasks, after)
  {
  }

  /** Replacing the (recipient, task) rows by one fresh row keeps pairs unique and rows pointing at tasks. */
  lemma {:induction false} ReplacedPairRow(assignments: map<Id, Assignment>, tasks: map<Id, Task>, recipient: Id,
                                           taskId: Id, newId: Id, row: Assignment)
    requires AssignmentPairsUnique(assignments) && AssignmentsReferToTasks(assignments, tasks) && Below(assignments, newId)
    requires row.assigneeId == recipient && row.taskId == taskId
    requires taskId in tasks && tasks[taskId].boardId == row.boardId
    ensures var after := (assignments - PairRows(assignments, recipient, taskId))[newId := row];
      AssignmentPairsUnique(after) && AssignmentsReferToTasks(after, tasks) && Below(after, newId + 1)
  {
    var kept := assignments - PairRows(assignments, recipient, taskId);
    var after := kept[newId := row];
    forall a, b | a in after && b in after
      && after[a].assigneeId == after[b].assigneeId && after[a].taskId == after[b].taskId
      ensures a == b
    {
      if a != newId { assert a in kept; }
      if b != newId { assert b in kept; }
    }
  }

  /** Tables that differ from consistent ones only in tasks (on the same boards) and in assignments
      satisfying the invariant's conditions are consistent. */
  lemma StillConsistent(db: Db, after: Db, before: Id, next: Id)
    requires Consistent(db, before) && before <= next
    requires SameOtherTables(db, after) && SameTaskBoards(db.tasks, after.tasks)
    requires Below(after.assignments, next) && AssignmentsReferToTasks(after.assignments, after.tasks)
    requires AssignmentPairsUnique(after.assignments)
    ensures Consistent(after, next)
  {
  }

  /** The text of the `AssignmentCome` push. */
  function AssignedContent(description: string): string
  {
    "You have been assigned the task of " + description + " "
  }

  /** `assignToMember`: hands a task to the board member with the given e-mail and tells them,
      if they are online. */
  method AssignToMember(st: Store, rt: Realtime, caller: Option<Id>, taskId: Id, recipientEmail: string, now: nat)
    returns (r: Result<string>)
    requires st.Valid()
    modifies st, rt`outbox
    ensures st.Valid()
    ensures var h := CheckHandoff(old(st.Tables()), caller, taskId, recipientEmail);
      && (h.Refuse? ==> r == Err(h.error) && st.Tables() == old(st.Tables()) && rt.outbox == old(rt.outbox))
      && (h.AlreadyAssigned? ==> r == Ok(Assigned) && st.Tables() == old(st.Tables()) && rt.outbox == old(rt.outbox))
      && (h.HandOver? ==>
            && r == Ok(Assigned)
            && st.Tables() == HandedOver(old(st.Tables()), caller.value, taskId, h.recipient, old(st.nextId), now)
            && rt.outbox == old(rt.outbox) +
                 if h.recipient == caller.value then []
                 else PushTo(rt.onlineUsers, h.recipient, AssignmentCome(AssignedContent(old(st.tasks)[taskId].description))))
  {
    var h := CheckHandoff(st.Tables(), caller, taskId, recipientEmail);
    if h.Refuse? {
      return Err(h.error);
    }
    if h.AlreadyAssigned? {
      return Ok(Assigned);
    }
    var description := st.tasks[taskId].description;
    ApplyHandOver(st, caller.value, taskId, h.recipient, now);
    if h.recipient != caller.value {
      rt.Notify(h.recipient, AssignmentCome(AssignedContent(description)));
    }
    r := Ok(Assigned);
  }

  /** The writes of a hand-over: the task changes assignee and, unless the caller took it,
      the (recipient, task) assignment row is replaced by a fresh one. */
  method ApplyHandOver(st: Store, caller: Id, taskId: Id, recipient: Id, now: nat)
    requires st.Valid() && taskId in st.tasks
    modifies st
    ensures st.Valid()
    ensures st.Tables() == HandedOver(old(st.Tables()), caller, taskId, recipient, old(st.nextId), now)
  {
    ghost var start := st.Tables();
    var task := st.tasks[taskId];
    if recipient == caller {
      st.tasks := st.tasks[taskId := task.(assigneeId := recipient)];
      HandOverShape(start, caller, taskId, recipient, st.nextId, now);
      HandOverConsistent(start, caller, taskId, recipient, st.nextId, now);
      return;
    }
    var assignments := st.assignments;
    var stale := PairRows(assignments, recipient, taskId);
    if stale != {} {
      var staleRow :| staleRow in stale;
      SinglePairRow(assignments, recipient, taskId, staleRow);
      assignments := assignments - {staleRow};
    }
    assert assignments == start.assignments - PairRows(start.assignments, recipient, taskId);
    // Nothing is inserted between drawing the id and the assignment row, so it is the id that row receives.
    var id := st.FreshId();
    assignments := assignments[id := NewAssignment(recipient, caller, taskId, task.boardId, now)];
    st.tasks := st.tasks[taskId := task.(assigneeId := recipient)];
    st.assignments := assignments;
    HandOverInSteps(start, st.Tables(), caller, taskId, recipient, id, now);
  }

  /** The task update, the removal of the (recipient, task) rows and the row under the fresh id
      together are `HandedOver`, and keep the tables consistent. */
  lemma HandOverInSteps(start: Db, after: Db, caller: Id, taskId: Id, recipient: Id, id: Id, now: nat)
    requires Consistent(start, id) && taskId in start.tasks && recipient != caller
    requires after == start.(tasks := start.tasks[taskId := start.tasks[taskId].(assigneeId := recipient)],
                             assignments := (start.assignments - PairRows(start.assignments, recipient, taskId))
                               [id := NewAssignment(recipient, caller, taskId, start.tasks[taskId].boardId, now)])
    ensures after == HandedOver(start, caller, taskId, recipient, id, now)
    ensures Consistent(after, id + 1)
  {
    HandOverShape(start, caller, taskId, recipient, id, now);
    HandOverConsistent(start, caller, taskId, recipient, id, now);
  }
}
