/** The database as one mutable object: one map field per table. */
module Store {
  import opened Common
  import opened Models

  class Store {
    var users: map<Id, User>
    var boards: map<Id, Board>
    var columns: map<Id, Column>
    var tasks: map<Id, Task>
    var members: map<Id, BoardMember>
    var invitations: map<Id, Invitation>
    var assignments: map<Id, Assignment>
    /** The id the next inserted row receives; stands for the UUID generator. */
    var nextId: Id

    /** All tables as one value. */
    function Tables(): Db
      reads this
    {
      Db(users, boards, columns, tasks, members, invitations, assignments)
    }

    ghost predicate Valid()
      reads this
    {
      Consistent(Tables(), nextId)
    }

    constructor ()
      ensures Valid()
      ensures Tables() == Db(map[], map[], map[], map[], map[], map[], map[])
    {
      users, boards, columns, tasks := map[], map[], map[], map[];
      members, invitations, assignments := map[], map[], map[];
      nextId := 0;
    }

    /** Issues an id that no row of any table has. */
    method FreshId() returns (id: Id)
      requires Valid()
      modifies this`nextId
      ensures Valid()
      ensures id == old(nextId) && nextId == id + 1
      ensures id !in users && id !in boards && id !in columns && id !in tasks
      ensures id !in members && id !in invitations && id !in assignments
    {
      id := nextId;
      nextId := nextId + 1;
    }

    /** `Board.create`: inserts a board row under a fresh id. */
    method InsertBoard(b: Board) returns (id: Id)
      requires Valid()
      modifies this`nextId, this`boards
      ensures Valid()
      ensures id == old(nextId) && nextId == id + 1 && id !in old(boards)
      ensures Tables() == old(Tables()).(boards := old(boards)[id := b])
    {
      id := nextId;
      nextId := nextId + 1;
      boards := boards[id := b];
    }

    /** `BoardMembers.create`: inserts a membership of an issued board under a fresh id. */
    method InsertMember(m: BoardMember) returns (id: Id)
      requires Valid() && m.boardId < nextId
      modifies this`nextId, this`members
      ensures Valid()
      ensures id == old(nextId) && nextId == id + 1 && id !in old(members)
      ensures Tables() == old(Tables()).(members := old(members)[id := m])
    {
      id := nextId;
      nextId := nextId + 1;
      members := members[id := m];
    }

    /** One row of `Column.bulkCreate`: inserts a column of an issued board under a fresh id. */
    method InsertColumn(c: Column) returns (id: Id)
      requires Valid() && c.boardId < nextId
      modifies this`nextId, this`columns
      ensures Valid()
      ensures id == old(nextId) && nextId == id + 1 && id !in old(columns)
      ensures Tables() == old(Tables()).(columns := old(columns)[id := c])
    {
      id := nextId;
      nextId := nextId + 1;
      columns := columns[id := c];
    }

    /** One row of `Invitation.bulkCreate`: inserts an invitation to an issued board under a fresh id. */
    method InsertInvitation(inv: Invitation) returns (id: Id)
      requires Valid() && inv.boardId < nextId
      modifies this`nextId, this`invitations
      ensures Valid()
      ensures id == old(nextId) && nextId == id + 1 && id !in old(invitations)
      ensures Tables() == old(Tables()).(invitations := old(invitations)[id := inv])
    {
      id := nextId;
      nextId := nextId + 1;
      invitations := invitations[id := inv];
    }

    /** `Task.create`: inserts a task row for a board id already issued, under a fresh id. */
    method InsertTask(t: Task) returns (id: Id)
      requires Valid() && t.boardId < nextId
      modifies this`nextId, this`tasks
      ensures Valid()
      ensures id == old(nextId) && nextId == id + 1 && id !in old(tasks)
      ensures Tables() == old(Tables()).(tasks := old(tasks)[id := t])
    {
      id := nextId;
      NewTaskKeepsRefs(assignments, tasks, id, t);
      nextId := nextId + 1;
      tasks := tasks[id := t];
    }

    /** `User.create`: inserts a user whose e-mail no user has yet, under a fresh id. */
    method InsertUser(u: User) returns (id: Id)
      requires Valid() && forall k :: k in users ==> users[k].email != u.email
      modifies this`nextId, this`users
      ensures Valid()
      ensures id == old(nextId) && nextId == id + 1 && id !in old(users)
      ensures Tables() == old(Tables()).(users := old(users)[id := u])
    {
      id := nextId;
      nextId := nextId + 1;
      users := users[id := u];
    }
  }
}
