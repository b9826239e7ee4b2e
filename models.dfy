/** The rows of the database tables, with the defaults their schemas declare, and the
    membership and lookup queries every handler uses. */
module Models {
  import opened Common
  import opened Strings
  import opened Collections

  datatype User = User(email: string, password: string, displayName: string, verified: bool)

  datatype Board = Board(boardName: string, key: string, description: Option<string>, ownerId: Id)

  datatype Column = Column(columnName: string, boardId: Id, sequence: nat)

  /** `sequence` and `position` are filled in by the creation hook; before it runs they hold 0. */
  datatype Task = Task(description: string, sequence: nat, position: nat, boardId: Id, columnId: Id, assigneeId: Id)

  datatype BoardMember = BoardMember(boardId: Id, userId: Id)

  datatype InvitationStatus = Pending | Accepted | Declined

  datatype Invitation = Invitation(recipientId: Id, senderId: Id, status: InvitationStatus, boardId: Id,
                                   seen: bool, createdAt: nat)

  datatype Assignment = Assignment(assigneeId: Id, senderId: Id, taskId: Id, boardId: Id,
                                   seen: bool, createdAt: nat)

  /** All tables, each keyed by row id. */
  datatype Db = Db(users: map<Id, User>, boards: map<Id, Board>, columns: map<Id, Column>,
                   tasks: map<Id, Task>, members: map<Id, BoardMember>,
                   invitations: map<Id, Invitation>, assignments: map<Id, Assignment>)

  /** A user row as inserted: `verified` takes its default. */
  function NewUser(email: string, password: string, displayName: string): (u: User)
    ensures !u.verified
    ensures u.email == email && u.password == password && u.displayName == displayName
  {
    User(email, password, displayName, false)
  }

  /** An invitation row as inserted: `status` and `seen` take their defaults. */
  function NewInvitation(recipient: Id, sender: Id, board: Id, now: nat): (inv: Invitation)
    ensures inv.status == Pending && !inv.seen
    ensures inv.recipientId == recipient && inv.senderId == sender && inv.boardId == board
  {
    Invitation(recipient, sender, Pending, board, false, now)
  }

  /** An assignment row as inserted: `seen` takes its default. */
  function NewAssignment(assignee: Id, sender: Id, task: Id, board: Id, now: nat): (a: Assignment)
    ensures !a.seen
    ensures a.assigneeId == assignee && a.senderId == sender && a.taskId == task && a.boardId == board
  {
    Assignment(assignee, sender, task, board, false, now)
  }

  /** `BoardMembers.findOne({ where: { board_id, user_id } })` finds a row. */
  predicate IsMember(members: map<Id, BoardMember>, user: Id, board: Id)
  {
    exists m :: m in members && members[m] == BoardMember(board, user)
  }

  /** `Board.findOne({ where: { id: board, owner_id: user } })` finds a row. */
  predicate IsOwner(boards: map<Id, Board>, user: Id, board: Id)
  {
    board in boards && boards[board].ownerId == user
  }

  /** Users are unique by e-mail (the column is declared unique). */
  ghost predicate EmailsUnique(users: map<Id, User>)
  {
    forall a, b :: a in users && b in users && users[a].email == users[b].email ==> a == b
  }

  /** `User.findOne({ where: { email } })`; when several rows match, the one with the least id. */
  function UserByEmail(users: map<Id, User>, email: string): (r: Option<Id>)
    ensures r.Some? ==> r.value in users && users[r.value].email == email
    ensures r.None? ==> forall id :: id in users ==> users[id].email != email
    ensures EmailsUnique(users) ==> forall id :: id in users && users[id].email == email ==> r == Some(id)
  {
    var ids := set id | id in users && users[id].email == email;
    if ids == {} then
      assert forall id :: id in users && users[id].email == email ==> id in ids;
      None
    else Some(Min(ids))
  }

  /** Every key of `m` is below the next id the store will issue. */
  ghost predicate Below<V>(m: map<Id, V>, next: Id)
  {
    forall id :: id in m ==> id < next
  }

  /** Every assignment names an existing task and carries that task's board. */
  ghost predicate AssignmentsReferToTasks(assignments: map<Id, Assignment>, tasks: map<Id, Task>)
  {
    forall a :: a in assignments ==>
      assignments[a].taskId in tasks && tasks[assignments[a].taskId].boardId == assignments[a].boardId
  }

  /** Adding a task under a new id keeps every assignment pointing at its task. */
  lemma NewTaskKeepsRefs(assignments: map<Id, Assignment>, tasks: map<Id, Task>, id: Id, t: Task)
    requires AssignmentsReferToTasks(assignments, tasks) && id !in tasks
    ensures AssignmentsReferToTasks(assignments, tasks[id := t])
  {
  }

  /** At most one assignment per (assignee, task). */
  ghost predicate AssignmentPairsUnique(assignments: map<Id, Assignment>)
  {
    forall a, b ::
      (a in assignments && b in assignments
       && assignments[a].assigneeId == assignments[b].assigneeId
       && assignments[a].taskId == assignments[b].taskId) ==> a == b
  }

  /** Columns, memberships, invitations and tasks name board ids that have been issued. */
  ghost predicate BoardRefsBelow(db: Db, next: Id)
  {
    && (forall c :: c in db.columns ==> db.columns[c].boardId < next)
    && (forall m :: m in db.members ==> db.members[m].boardId < next)
    && (forall i :: i in db.invitations ==> db.invitations[i].boardId < next)
    && (forall t :: t in db.tasks ==> db.tasks[t].boardId < next)
  }

  /** The invariant the handlers keep over the tables. */
  ghost predicate Consistent(db: Db, next: Id)
  {
    && Below(db.users, next) && Below(db.boards, next) && Below(db.columns, next) && Below(db.tasks, next)
    && Below(db.members, next) && Below(db.invitations, next) && Below(db.assignments, next)
    && BoardRefsBelow(db, next)
    && EmailsUnique(db.users)
    && AssignmentsReferToTasks(db.assignments, db.tasks)
    && AssignmentPairsUnique(db.assignments)
  }
}
