/** The task table's creation hook, which numbers tasks per board, and its cascade to assignments. */
module TaskModel {
  import opened Common
  import opened Collections
  import opened Models

  /** The sequences of the tasks on `board`. */
  function BoardSequences(tasks: map<Id, Task>, board: Id): set<nat>
  {
    set id | id in tasks && tasks[id].boardId == board :: tasks[id].sequence
  }

  /** `Task.max("sequence", { where: { board_id } })`, with 0 standing for the null of an empty board. */
  function MaxSequence(tasks: map<Id, Task>, board: Id): (m: nat)
    ensures forall id :: id in tasks && tasks[id].boardId == board ==> tasks[id].sequence <= m
    ensures m != 0 ==> exists id :: id in tasks && tasks[id].boardId == board && tasks[id].sequence == m
  {
    var s := BoardSequences(tasks, board);
    assert forall id :: id in tasks && tasks[id].boardId == board ==> tasks[id].sequence in s;
    if s == {} then 0 else Max(s)
  }

  /** `maxSequence ? maxSequence + 1 : 1`. */
  function NextSequence(tasks: map<Id, Task>, board: Id): nat
  {
    var m := MaxSequence(tasks, board);
    if m == 0 then 1 else m + 1
  }

  /** The `beforeCreate` hook: the row about to be inserted, with `sequence` and `position` both
      set to one more than the largest sequence on its board. */
  function BeforeCreate(tasks: map<Id, Task>, t: Task): (r: Task)
    ensures r == t.(sequence := r.sequence, position := r.sequence)
    ensures forall id :: id in tasks && tasks[id].boardId == t.boardId ==> tasks[id].sequence < r.sequence
    ensures (forall id :: id in tasks ==> tasks[id].boardId != t.boardId) ==> r.sequence == 1
    ensures r.sequence == 1 || exists id :: id in tasks && tasks[id].boardId == t.boardId && tasks[id].sequence == r.sequence - 1
  {
    var s := NextSequence(tasks, t.boardId);
    t.(sequence := s, position := s)
  }

  /** Tasks of other boards neither influence the next sequence of `board` ... */
  lemma OtherBoardsIgnored(tasks: map<Id, Task>, board: Id, id: Id, t: Task)
    requires t.boardId != board
    requires id !in tasks || tasks[id].boardId != board
    ensures NextSequence(tasks[id := t], board) == NextSequence(tasks, board)
  {
    var before := tasks;
    var after := tasks[id := t];
    assert BoardSequences(after, board) == BoardSequences(before, board) by {
      forall x ensures x in BoardSequences(after, board) <==> x in BoardSequences(before, board) {
        if x in BoardSequences(after, board) {
          var k :| k in after && after[k].boardId == board && after[k].sequence == x;
          assert k != id && k in before;
        }
        if x in BoardSequences(before, board) {
          var k :| k in before && before[k].boardId == board && before[k].sequence == x;
          assert k != id && k in after;
        }
      }
    }
  }

  /** ... nor change when a task is created on `board`. */
  lemma CreateLeavesOtherBoards(tasks: map<Id, Task>, id: Id, t: Task)
    requires id !in tasks
    ensures forall k :: k in tasks ==> k in tasks[id := BeforeCreate(tasks, t)] && tasks[id := BeforeCreate(tasks, t)][k] == tasks[k]
  {
  }

  /** Creating a task on a board moves that board's next sequence on by exactly one, so
      consecutive creations with nothing deleted in between number their tasks 1, 2, 3, ... */
  lemma {:induction false} CreateAdvancesSequence(tasks: map<Id, Task>, id: Id, t: Task)
    requires id !in tasks
    ensures NextSequence(tasks[id := BeforeCreate(tasks, t)], t.boardId) == BeforeCreate(tasks, t).sequence + 1
  {
    var r := BeforeCreate(tasks, t);
    var after := tasks[id := r];
    var b := t.boardId;
    var m := MaxSequence(after, b);
    assert after[id].boardId == b && after[id].sequence == r.sequence;
    assert r.sequence <= m;
    assert forall k :: k in after && k != id ==> k in tasks && after[k] == tasks[k];
    assert m == r.sequence;
  }

  /** Two creations on one board in a row: the second task's sequence is one more than the first's. */
  lemma ConsecutiveCreations(tasks: map<Id, Task>, id1: Id, t1: Task, id2: Id, t2: Task)
    requires id1 !in tasks && id2 !in tasks && id1 != id2
    requires t1.boardId == t2.boardId
    ensures var first := BeforeCreate(tasks, t1);
      BeforeCreate(tasks[id1 := first], t2).sequence == first.sequence + 1
  {
    CreateAdvancesSequence(tasks, id1, t1);
  }

  /** Creating a task and deleting it again gives the next creation on its board the same sequence:
      the deleted task's number is issued a second time. */
  lemma SequenceReissuedAfterDelete(tasks: map<Id, Task>, id: Id, t: Task, next: Task)
    requires id !in tasks && next.boardId == t.boardId
    ensures var created := BeforeCreate(tasks, t);
      BeforeCreate(tasks[id := created] - {id}, next).sequence == created.sequence
  {
    assert tasks[id := BeforeCreate(tasks, t)] - {id} == tasks;
  }

  /** Deleting a task never raises the next sequence of any board. */
  lemma {:induction false} DeleteNeverRaisesSequence(tasks: map<Id, Task>, id: Id, board: Id)
    ensures NextSequence(tasks - {id}, board) <= NextSequence(tasks, board)
  {
    var m := MaxSequence(tasks - {id}, board);
    if m != 0 {
      var k :| k in tasks - {id} && (tasks - {id})[k].boardId == board && (tasks - {id})[k].sequence == m;
      assert k in tasks && tasks[k] == (tasks - {id})[k];
    }
  }

  /** The assignments left when task `id` is destroyed (`Assignment.destroy({ where: { task_id } })`,
      also the effect of the task's `onDelete: "CASCADE"`). */
  function WithoutTask(assignments: map<Id, Assignment>, id: Id): map<Id, Assignment>
  {
    map a | a in assignments && assignments[a].taskId != id :: assignments[a]
  }

  /** Destroying a task together with its assignments leaves no assignment pointing at a missing task,
      keeps the other assignments as they were, and keeps (assignee, task) pairs unique. */
  lemma {:induction false} DeleteTaskCascade(assignments: map<Id, Assignment>, tasks: map<Id, Task>, id: Id)
    requires AssignmentsReferToTasks(assignments, tasks)
    requires AssignmentPairsUnique(assignments)
    ensures AssignmentsReferToTasks(WithoutTask(assignments, id), tasks - {id})
    ensures AssignmentPairsUnique(WithoutTask(assignments, id))
    ensures forall a :: a in WithoutTask(assignments, id) ==> WithoutTask(assignments, id)[a].taskId != id
    ensures forall a :: a in assignments && assignments[a].taskId != id ==>
      a in WithoutTask(assignments, id) && WithoutTask(assignments, id)[a] == assignments[a]
  {
    var left := WithoutTask(assignments, id);
    forall a | a in left
      ensures left[a].taskId in tasks - {id} && (tasks - {id})[left[a].taskId].boardId == left[a].boardId
    {
      assert a in assignments && left[a] == assignments[a];
    }
  }
}
