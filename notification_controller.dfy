/** `getAllNotifications`: the invitations and task assignments addressed to the caller, newest
    first, with the numbers not yet seen. */
module NotificationController {
  import opened Common
  import opened Errors
  import opened Collections
  import opened Models

  const AllValues := "Please provide all value"

  /** The response body; the lists hold the ids of the rows. */
  datatype Notifications = Notifications(invitations: seq<Id>, assignments: seq<Id>,
                                         unreadInvitations: nat, unreadAssignments: nat,
                                         unreadNotifications: nat)

  /** `Invitation.findAll({ where: { recipient_id: user } })`, with `seen: false` when `unread`. */
  function InvitationsFor(invitations: map<Id, Invitation>, user: Id, unread: bool): (s: set<Id>)
    ensures forall i :: i in s <==> i in invitations && invitations[i].recipientId == user
                                    && (unread ==> !invitations[i].seen)
  {
    set i | i in invitations && invitations[i].recipientId == user && (unread ==> !invitations[i].seen)
  }

  /** `Assignment.findAll({ where: { assignee_id: user } })`, with `seen: false` when `unread`. */
  function AssignmentsFor(assignments: map<Id, Assignment>, user: Id, unread: bool): (s: set<Id>)
    ensures forall i :: i in s <==> i in assignments && assignments[i].assigneeId == user
                                    && (unread ==> !assignments[i].seen)
  {
    set i | i in assignments && assignments[i].assigneeId == user && (unread ==> !assignments[i].seen)
  }

  /** Sort key for newest first: the negated `createdAt` of an invitation. */
  function InvitationAge(invitations: map<Id, Invitation>, id: Id): int
  {
    if id in invitations then -(invitations[id].createdAt as int) else 0
  }

  /** Sort key for newest first: the negated `createdAt` of an assignment. */
  function AssignmentAge(assignments: map<Id, Assignment>, id: Id): int
  {
    if id in assignments then -(assignments[id].createdAt as int) else 0
  }

  /** `order: [["createdAt", "DESC"]]` over a set of invitations. */
  function InvitationsNewestFirst(invitations: map<Id, Invitation>, ids: set<Id>): (r: seq<Id>)
    requires ids <= invitations.Keys
    ensures |r| == |ids| && (forall i :: i in r <==> i in ids)
    ensures forall i, j :: 0 <= i < j < |r| ==> r[i] != r[j]
    ensures forall i, j :: 0 <= i < j < |r| ==> invitations[r[i]].createdAt >= invitations[r[j]].createdAt
  {
    var r := Ordered(ids, (id: Id) => InvitationAge(invitations, id));
    InvitationsByAge(invitations, r);
    r
  }

  /** Ids sorted by `InvitationAge` are newest first once they are all invitations. */
  lemma {:induction false} InvitationsByAge(invitations: map<Id, Invitation>, r: seq<Id>)
    requires forall i :: 0 <= i < |r| ==> r[i] in invitations
    requires SortedBy(r, (id: Id) => InvitationAge(invitations, id))
    ensures forall i, j :: 0 <= i < j < |r| ==> invitations[r[i]].createdAt >= invitations[r[j]].createdAt
  {
    var key := (id: Id) => InvitationAge(invitations, id);
    forall i, j | 0 <= i < j < |r| ensures invitations[r[i]].createdAt >= invitations[r[j]].createdAt {
      assert key(r[i]) <= key(r[j]);
    }
  }

  /** `order: [["createdAt", "DESC"]]` over a set of assignments. */
  function AssignmentsNewestFirst(assignments: map<Id, Assignment>, ids: set<Id>): (r: seq<Id>)
    requires ids <= assignments.Keys
    ensures |r| == |ids| && (forall i :: i in r <==> i in ids)
    ensures forall i, j :: 0 <= i < j < |r| ==> r[i] != r[j]
    ensures forall i, j :: 0 <= i < j < |r| ==> assignments[r[i]].createdAt >= assignments[r[j]].createdAt
  {
    var r := Ordered(ids, (id: Id) => AssignmentAge(assignments, id));
    AssignmentsByAge(assignments, r);
    r
  }

  /** Ids sorted by `AssignmentAge` are newest first once they are all assignments. */
  lemma {:induction false} AssignmentsByAge(assignments: map<Id, Assignment>, r: seq<Id>)
    requires forall i :: 0 <= i < |r| ==> r[i] in assignments
    requires SortedBy(r, (id: Id) => AssignmentAge(assignments, id))
    ensures forall i, j :: 0 <= i < j < |r| ==> assignments[r[i]].createdAt >= assignments[r[j]].createdAt
  {
    var key := (id: Id) => AssignmentAge(assignments, id);
    forall i, j | 0 <= i < j < |r| ensures assignments[r[i]].createdAt >= assignments[r[j]].createdAt {
      assert key(r[i]) <= key(r[j]);
    }
  }

  /** What `getAllNotifications` answers to `user`. */
  function Inbox(db: Db, user: Id): (n: Notifications)
    ensures forall i :: i in n.invitations <==> i in db.invitations && db.invitations[i].recipientId == user
    ensures forall i, j :: 0 <= i < j < |n.invitations| ==>
      db.invitations[n.invitations[i]].createdAt >= db.invitations[n.invitations[j]].createdAt
    ensures forall i :: i in n.assignments <==> i in db.assignments && db.assignments[i].assigneeId == user
    ensures forall i, j :: 0 <= i < j < |n.assignments| ==>
      db.assignments[n.assignments[i]].createdAt >= db.assignments[n.assignments[j]].createdAt
    ensures |n.invitations| == |InvitationsFor(db.invitations, user, false)|
    ensures forall i, j :: 0 <= i < j < |n.invitations| ==> n.invitations[i] != n.invitations[j]
    ensures |n.assignments| == |AssignmentsFor(db.assignments, user, false)|
    ensures forall i, j :: 0 <= i < j < |n.assignments| ==> n.assignments[i] != n.assignments[j]
    ensures n.unreadInvitations == |InvitationsFor(db.invitations, user, true)| <= |n.invitations|
    ensures n.unreadAssignments == |AssignmentsFor(db.assignments, user, true)| <= |n.assignments|
    ensures n.unreadNotifications == n.unreadInvitations + n.unreadAssignments
  {
    var invitations := InvitationsFor(db.invitations, user, false);
    var unreadInvitations := InvitationsFor(db.invitations, user, true);
    var assignments := AssignmentsFor(db.assignments, user, false);
    var unreadAssignments := AssignmentsFor(db.assignments, user, true);
    SubsetSize(unreadInvitations, invitations);
    SubsetSize(unreadAssignments, assignments);
    Notifications(InvitationsNewestFirst(db.invitations, invitations),
                  AssignmentsNewestFirst(db.assignments, assignments),
                  |unreadInvitations|, |unreadAssignments|,
                  |unreadInvitations| + |unreadAssignments|)
  }

  lemma SubsetSize(a: set<Id>, b: set<Id>)
    requires a <= b
    ensures |a| <= |b|
  {
    assert b == a + (b - a);
  }

  /** `getAllNotifications`; `caller` is the authenticated user, absent when no user is attached
      to the request. */
  function GetAllNotifications(db: Db, caller: Option<Id>): (r: Result<Notifications>)
    ensures caller.None? <==> r.Err?
    ensures r.Err? ==> r.error == BadRequest(AllValues)
    ensures r.Ok? ==> r.value == Inbox(db, caller.value)
  {
    match caller
    case None => Err(BadRequest(AllValues))
    case Some(user) => Ok(Inbox(db, user))
  }
}
