/** The board handlers: create, list page by page, open, edit and delete a board. */
module BoardController {
  import opened Common
  import opened Errors
  import opened Strings
  import opened Collections
  import opened Models
  import opened Store
  import opened Presence

  const AllValues := "Please provide all value"
  const NotOwner := "Your are not a owner of the board"
  /** The TypeError `invitedMembers.map` raises when the body carries no `invitedMembers`. */
  const MapOfUndefined := "Cannot read properties of undefined (reading 'map')"

  // ---------------------------------------------------------------- createBoard

  /** The board row `createBoard` inserts; an empty description is stored as null. */
  function NewBoard(boardName: string, key: string, description: string, owner: Id): Board
  {
    Board(boardName, key, if description == "" then None else Some(description), owner)
  }

  /** The rows `Invitation.bulkCreate` inserts: one pending invitation per invitee, in order,
      with ids from `first` up. Invitees are not de-duplicated. */
  function InvitationRows(first: Id, recipients: seq<Id>, sender: Id, board: Id, now: nat)
    : map<Id, Invitation>
    decreases |recipients|
  {
    if recipients == [] then map[]
    else
      var n := |recipients| - 1;
      InvitationRows(first, recipients[..n], sender, board, now)[first + n := NewInvitation(recipients[n], sender, board, now)]
  }

  /** The rows have exactly the ids `first .. first + |recipients| - 1`, the row at `first + j`
      inviting the `j`-th invitee. */
  lemma {:induction false} InvitationRowsFacts(first: Id, recipients: seq<Id>, sender: Id, board: Id, now: nat)
    ensures forall k :: k in InvitationRows(first, recipients, sender, board, now) <==> first <= k < first + |recipients|
    ensures forall k :: k in InvitationRows(first, recipients, sender, board, now) ==>
      InvitationRows(first, recipients, sender, board, now)[k] == NewInvitation(recipients[k - first], sender, board, now)
    decreases |recipients|
  {
    if recipients != [] {
      var n := |recipients| - 1;
      InvitationRowsFacts(first, recipients[..n], sender, board, now);
      var rows := InvitationRows(first, recipients[..n], sender, board, now);
      assert forall k :: k in rows ==> recipients[..n][k - first] == recipients[k - first];
    }
  }

  /** The text of the `InvitationCome` push. */
  function InviteContent(boardName: string): string
  {
    "You received an invitation to join " + boardName + " board"
  }

  /** The pushes the invitation loop sends, in the order of the invitees. */
  function InvitePushes(online: seq<OnlineUser>, recipients: seq<Id>, event: Event): (r: seq<Push>)
    ensures |r| <= |recipients|
    decreases |recipients|
  {
    if recipients == [] then []
    else
      var n := |recipients| - 1;
      InvitePushes(online, recipients[..n], event) + PushTo(online, recipients[n], event)
  }

  /** Each online invitee receives the event at its socket, and every push goes to the socket of
      an online invitee. */
  lemma {:induction false} InvitePushesFacts(online: seq<OnlineUser>, recipients: seq<Id>, event: Event)
    ensures var r := InvitePushes(online, recipients, event);
      && (forall p :: p in r ==>
            p.event == event && exists j :: 0 <= j < |recipients| && Some(p.socketId) == SocketOf(online, recipients[j]))
      && (forall j :: 0 <= j < |recipients| && IsOnline(online, recipients[j]) ==>
            Push(SocketOf(online, recipients[j]).value, event) in r)
    decreases |recipients|
  {
    if recipients != [] {
      var n := |recipients| - 1;
      var front := recipients[..n];
      InvitePushesFacts(online, front, event);
      assert forall j :: 0 <= j < n ==> front[j] == recipients[j];
      var r := InvitePushes(online, recipients, event);
      assert r == InvitePushes(online, front, event) + PushTo(online, recipients[n], event);
      forall p | p in r
        ensures p.event == event && exists j :: 0 <= j < |recipients| && Some(p.socketId) == SocketOf(online, recipients[j])
      {
        if p in PushTo(online, recipients[n], event) {
          assert Some(p.socketId) == SocketOf(online, recipients[n]);
        } else {
          var j :| 0 <= j < n && Some(p.socketId) == SocketOf(online, front[j]);
          assert Some(p.socketId) == SocketOf(online, recipients[j]);
        }
      }
      forall j | 0 <= j < |recipients| && IsOnline(online, recipients[j])
        ensures Push(SocketOf(online, recipients[j]).value, event) in r
      {
        if j == n {
          assert PushTo(online, recipients[n], event) == [Push(SocketOf(online, recipients[j]).value, event)];
        } else {
          assert front[j] == recipients[j];
        }
      }
    }
  }

  /** The tables after a successful `createBoard` whose first fresh id is `n`: the board, the
      invitations, the owner's membership and the three default columns, in that order of ids. */
  function CreatedBoard(db: Db, n: Id, owner: Id, boardName: string, key: string, description: string,
                        invited: seq<Id>, now: nat): Db
  {
    Furnished(db.(boards := db.boards[n := NewBoard(boardName, key, description, owner)],
                  invitations := db.invitations + InvitationRows(n + 1, invited, owner, n, now)),
              n, owner, n + |invited| + 1)
  }

  /** The owner's membership of `boardId` under id `first`, then the three default columns under
      the ids after it. */
  function Furnished(db: Db, boardId: Id, owner: Id, first: Id): Db
  {
    db.(members := db.members[first := BoardMember(boardId, owner)],
        columns := db.columns[first + 1 := Column("TO DO", boardId, 1)]
                             [first + 2 := Column("IN PROGRESS", boardId, 2)]
                             [first + 3 := Column("DONE", boardId, 3)])
  }

  /** `CreatedBoard` table by table; this only splits the proofs that use it and states no
      property of its own. */
  lemma CreatedBoardTables(db: Db, n: Id, owner: Id, boardName: string, key: string, description: string,
                           invited: seq<Id>, now: nat)
    ensures var k := |invited|;
      CreatedBoard(db, n, owner, boardName, key, description, invited, now)
        == Db(db.users, db.boards[n := NewBoard(boardName, key, description, owner)],
              db.columns[n + k + 2 := Column("TO DO", n, 1)]
                        [n + k + 3 := Column("IN PROGRESS", n, 2)][n + k + 4 := Column("DONE", n, 3)],
              db.tasks, db.members[n + k + 1 := BoardMember(n, owner)],
              db.invitations + InvitationRows(n + 1, invited, owner, n, now),
              db.assignments)
  {
  }

  /** A created board is owned by the caller, has the caller as its only member and exactly the
      three default columns. */
  lemma {:induction false} CreatedBoardShape(db: Db, n: Id, owner: Id, boardName: string, key: string,
                                             description: string, invited: seq<Id>, now: nat)
    requires Consistent(db, n)
    ensures var after := CreatedBoard(db, n, owner, boardName, key, description, invited, now);
      var k := |invited|;
      && n !in db.boards
      && IsOwner(after.boards, owner, n)
      && after.boards[n].boardName == boardName && after.boards[n].key == key
      && after.boards[n].description == (if description == "" then None else Some(description))
      && IsMember(after.members, owner, n)
      && (forall m :: m in after.members && after.members[m].boardId == n ==> after.members[m].userId == owner)
      && (forall c :: c in after.columns && after.columns[c].boardId == n <==> n + k + 2 <= c <= n + k + 4)
      && after.columns[n + k + 2] == Column("TO DO", n, 1)
      && after.columns[n + k + 3] == Column("IN PROGRESS", n, 2)
      && after.columns[n + k + 4] == Column("DONE", n, 3)
  {
    var after := CreatedBoard(db, n, owner, boardName, key, description, invited, now);
    var k := |invited|;
    assert after.members[n + k + 1] == BoardMember(n, owner);
  }

  /** A created board has exactly one pending invitation per invitee, sent by the caller. */
  lemma {:induction false} CreatedBoardInvitations(db: Db, n: Id, owner: Id, boardName: string, key: string,
                                                   description: string, invited: seq<Id>, now: nat)
    requires Consistent(db, n)
    ensures var after := CreatedBoard(db, n, owner, boardName, key, description, invited, now);
      var k := |invited|;
      && (forall i :: i in after.invitations && after.invitations[i].boardId == n <==> n + 1 <= i <= n + k)
      && (forall j :: 0 <= j < k ==> after.invitations[n + 1 + j] == NewInvitation(invited[j], owner, n, now))
  {
    var after := CreatedBoard(db, n, owner, boardName, key, description, invited, now);
    var rows := InvitationRows(n + 1, invited, owner, n, now);
    assert after.invitations == db.invitations + rows;
    InvitationRowsFacts(n + 1, invited, owner, n, now);
    NewBoardInvitations(db.invitations, rows, n, |invited|);
    forall j | 0 <= j < |invited|
      ensures after.invitations[n + 1 + j] == NewInvitation(invited[j], owner, n, now)
    {
      assert n + 1 + j in rows;
    }
  }

  /** Rows under the ids `n + 1 .. n + k` for board `n`, added to rows that are all below `n` and
      refer to boards below `n`, are exactly the rows for board `n`. */
  lemma NewBoardInvitations(invitations: map<Id, Invitation>, rows: map<Id, Invitation>, n: Id, k: nat)
    requires forall i :: i in invitations ==> i < n && invitations[i].boardId < n
    requires forall i :: i in rows <==> n + 1 <= i < n + 1 + k
    requires forall i :: i in rows ==> rows[i].boardId == n
    ensures var after := invitations + rows;
      && (forall i :: i in after && after[i].boardId == n <==> n + 1 <= i <= n + k)
      && (forall i :: i in rows ==> after[i] == rows[i])
  {
  }

  /** `createBoard` keeps every existing row. */
  lemma {:induction false} CreatedBoardKeeps(db: Db, n: Id, owner: Id, boardName: string, key: string,
                                             description: string, invited: seq<Id>, now: nat)
    requires Consistent(db, n)
    ensures var after := CreatedBoard(db, n, owner, boardName, key, description, invited, now);
      && (forall b :: b in db.boards ==> b in after.boards && after.boards[b] == db.boards[b])
      && (forall m :: m in db.members ==> m in after.members && after.members[m] == db.members[m])
      && (forall c :: c in db.columns ==> c in after.columns && after.columns[c] == db.columns[c])
      && (forall i :: i in db.invitations ==> i in after.invitations && after.invitations[i] == db.invitations[i])
      && after.users == db.users && after.tasks == db.tasks && after.assignments == db.assignments
  {
    var after := CreatedBoard(db, n, owner, boardName, key, description, invited, now);
    var rows := InvitationRows(n + 1, invited, owner, n, now);
    InvitationRowsFacts(n + 1, invited, owner, n, now);
    assert forall i :: i in rows ==> i !in db.invitations && after.invitations[i] == rows[i];
  }

  /** One more invitee adds one more row, under the next id. */
  lemma {:induction false} InvitationRowsStep(first: Id, recipients: seq<Id>, i: nat, sender: Id, board: Id, now: nat)
    requires i < |recipients|
    ensures InvitationRows(first, recipients[..i + 1], sender, board, now)
         == InvitationRows(first, recipients[..i], sender, board, now)[first + i := NewInvitation(recipients[i], sender, board, now)]
  {
    assert recipients[..i + 1][..i] == recipients[..i];
  }

  /** One turn of the insertion loop: the row under id `first + i` extends the rows inserted so far. */
  lemma InvitationsLoopStep(start: Db, before: Db, after: Db, first: Id, recipients: seq<Id>, i: nat, id: Id,
                            sender: Id, board: Id, now: nat)
    requires i < |recipients| && id == first + i
    requires before == start.(invitations := start.invitations + InvitationRows(first, recipients[..i], sender, board, now))
    requires after == before.(invitations := before.invitations[id := NewInvitation(recipients[i], sender, board, now)])
    ensures after == start.(invitations := start.invitations + InvitationRows(first, recipients[..i + 1], sender, board, now))
  {
    InvitationRowsStep(first, recipients, i, sender, board, now);
    UnionUpdate(start.invitations, InvitationRows(first, recipients[..i], sender, board, now), id,
                NewInvitation(recipients[i], sender, board, now));
  }

  /** `Invitation.bulkCreate(mergedInvitedMembers)`: inserts the invitation rows one id at a time. */
  method InsertInvitations(st: Store, recipients: seq<Id>, sender: Id, board: Id, now: nat)
    requires st.Valid() && board < st.nextId
    modifies st
    ensures st.Valid()
    ensures st.nextId == old(st.nextId) + |recipients|
    ensures st.Tables() == old(st.Tables()).(invitations :=
      old(st.invitations) + InvitationRows(old(st.nextId), recipients, sender, board, now))
  {
    ghost var start := st.Tables();
    ghost var first := st.nextId;
    var i := 0;
    while i < |recipients|
      invariant 0 <= i <= |recipients|
      invariant st.Valid()
      invariant st.nextId == first + i
      invariant st.Tables() == start.(invitations :=
        start.invitations + InvitationRows(first, recipients[..i], sender, board, now))
    {
      ghost var before := st.Tables();
      var inv := NewInvitation(recipients[i], sender, board, now);
      var id := st.InsertInvitation(inv);
      InvitationsLoopStep(start, before, st.Tables(), first, recipients, i, id, sender, board, now);
      i := i + 1;
    }
    assert recipients[..i] == recipients;
  }

  /** One more invitee adds that invitee's push at the end. */
  lemma InvitePushesStep(online: seq<OnlineUser>, recipients: seq<Id>, i: nat, event: Event)
    requires i < |recipients|
    ensures InvitePushes(online, recipients[..i + 1], event)
         == InvitePushes(online, recipients[..i], event) + PushTo(online, recipients[i], event)
  {
    assert recipients[..i + 1][..i] == recipients[..i];
  }

  /** The loop over `mergedInvitedMembers` that pushes `InvitationCome` to each online invitee. */
  method NotifyInvitees(rt: Realtime, recipients: seq<Id>, event: Event)
    modifies rt`outbox
    ensures rt.outbox == old(rt.outbox) + InvitePushes(rt.onlineUsers, recipients, event)
  {
    var i := 0;
    while i < |recipients|
      invariant 0 <= i <= |recipients|
      invariant rt.outbox == old(rt.outbox) + InvitePushes(rt.onlineUsers, recipients[..i], event)
    {
      rt.Notify(recipients[i], event);
      InvitePushesStep(rt.onlineUsers, recipients, i, event);
      Associative(old(rt.outbox), InvitePushes(rt.onlineUsers, recipients[..i], event),
                  PushTo(rt.onlineUsers, recipients[i], event));
      i := i + 1;
    }
    assert recipients[..i] == recipients;
  }

  /** `BoardMembers.create` for the owner, then `Column.bulkCreate` of the three default columns. */
  method AddOwnerAndColumns(st: Store, boardId: Id, owner: Id)
    requires st.Valid() && boardId < st.nextId
    modifies st
    ensures st.Valid()
    ensures st.nextId == old(st.nextId) + 4
    ensures st.Tables() == Furnished(old(st.Tables()), boardId, owner, old(st.nextId))
  {
    ghost var start := st.Tables();
    var memberId := st.InsertMember(BoardMember(boardId, owner));
    ghost var joined := st.Tables();
    var todo := st.InsertColumn(Column("TO DO", boardId, 1));
    ghost var one := st.Tables();
    var doing := st.InsertColumn(Column("IN PROGRESS", boardId, 2));
    ghost var two := st.Tables();
    var done := st.InsertColumn(Column("DONE", boardId, 3));
    FurnishedInSteps(start, joined, one, two, st.Tables(), boardId, owner, memberId, todo, doing, done);
  }

  /** The part of `createBoard` after the board row: the invitations and their pushes, the
      owner's membership and the default columns. */
  method InviteAndFurnish(st: Store, rt: Realtime, boardId: Id, owner: Id, boardName: string,
                          recipients: seq<Id>, now: nat)
    requires st.Valid() && boardId + 1 == st.nextId
    modifies st, rt`outbox
    ensures st.Valid()
    ensures st.nextId == boardId + |recipients| + 5
    ensures st.Tables() == Furnished(old(st.Tables()).(invitations :=
      old(st.invitations) + InvitationRows(boardId + 1, recipients, owner, boardId, now)), boardId, owner, boardId + |recipients| + 1)
    ensures rt.outbox == old(rt.outbox) + InvitePushes(rt.onlineUsers, recipients, InvitationCome(InviteContent(boardName)))
  {
    ghost var start := st.Tables();
    ghost var first := st.nextId;
    InsertInvitations(st, recipients, owner, boardId, now);
    NotifyInvitees(rt, recipients, InvitationCome(InviteContent(boardName)));
    ghost var invited := st.Tables();
    ghost var n := st.nextId;
    AddOwnerAndColumns(st, boardId, owner);
    InvitedThenFurnished(start, invited, st.Tables(), recipients, owner, boardId, now, first, n);
  }

  /** The membership and the three columns inserted one id after another give `Furnished`; this
      only splits the proof of `AddOwnerAndColumns` and states no property of its own. */
  lemma FurnishedInSteps(start: Db, joined: Db, one: Db, two: Db, three: Db, boardId: Id, owner: Id,
                         first: Id, todo: Id, doing: Id, done: Id)
    requires todo == first + 1 && doing == todo + 1 && done == doing + 1
    requires joined == start.(members := start.members[first := BoardMember(boardId, owner)])
    requires one == joined.(columns := joined.columns[todo := Column("TO DO", boardId, 1)])
    requires two == one.(columns := one.columns[doing := Column("IN PROGRESS", boardId, 2)])
    requires three == two.(columns := two.columns[done := Column("DONE", boardId, 3)])
    ensures three == Furnished(start, boardId, owner, first)
  {
  }

  /** The invitation rows, then the membership and columns under the ids after them. */
  lemma InvitedThenFurnished(start: Db, invited: Db, furnished: Db, recipients: seq<Id>, owner: Id, boardId: Id,
                             now: nat, first: Id, n: Id)
    requires first == boardId + 1 && n == first + |recipients|
    requires invited == start.(invitations := start.invitations + InvitationRows(first, recipients, owner, boardId, now))
    requires furnished == Furnished(invited, boardId, owner, n)
    ensures furnished == Furnished(start.(invitations := start.invitations
                                     + InvitationRows(boardId + 1, recipients, owner, boardId, now)),
                                   boardId, owner, boardId + |recipients| + 1)
  {
  }

  /** `createBoard`: the caller opens a board, invites members and gets the default columns.
      Without `invitedMembers` the board row is already in place when the handler fails. */
  method CreateBoard(st: Store, rt: Realtime, caller: Option<Id>, boardName: string, key: string,
                     description: string, invited: Option<seq<Id>>, now: nat)
    returns (r: Result<string>)
    requires st.Valid()
    modifies st, rt`outbox
    ensures st.Valid()
    ensures (boardName == "" || key == "" || caller.None?) ==>
      && r == Err(BadRequest(AllValues))
      && st.Tables() == old(st.Tables()) && rt.outbox == old(rt.outbox)
    ensures (boardName != "" && key != "" && caller.Some? && invited.None?) ==>
      && r == Err(Unexpected(MapOfUndefined))
      && st.Tables() == old(st.Tables()).(boards := old(st.boards)[old(st.nextId) :=
           NewBoard(boardName, key, description, caller.value)])
      && rt.outbox == old(rt.outbox)
    ensures (boardName != "" && key != "" && caller.Some? && invited.Some?) ==>
      && r == Ok("Created your board successfully")
      && st.Tables() == CreatedBoard(old(st.Tables()), old(st.nextId), caller.value, boardName, key,
                                     description, invited.value, now)
      && rt.outbox == old(rt.outbox) + InvitePushes(rt.onlineUsers, invited.value,
                                                    InvitationCome(InviteContent(boardName)))
  {
    if boardName == "" || key == "" || caller.None? {
      return Err(BadRequest(AllValues));
    }
    var owner := caller.value;
    ghost var start := st.Tables();
    var boardId := st.InsertBoard(NewBoard(boardName, key, description, owner));
    if invited.None? {
      return Err(Unexpected(MapOfUndefined));
    }
    var recipients := invited.value;
    ghost var afterBoard := st.Tables();
    InviteAndFurnish(st, rt, boardId, owner, boardName, recipients, now);
    CreatedBoardTables(start, boardId, owner, boardName, key, description, recipients, now);
    assert afterBoard == start.(boards := start.boards[boardId := NewBoard(boardName, key, description, owner)]);
    r := Ok("Created your board successfully");
  }

  // ---------------------------------------------------------------- getAllBoards

  /** `parseInt(x) || d`: an absent, unparsable or zero value falls back to `d`. */
  function OrDefault(parsed: Option<nat>, d: nat): (v: nat)
    ensures d > 0 ==> v > 0
    ensures parsed.Some? && parsed.value > 0 ==> v == parsed.value
    ensures v != d ==> parsed.Some? && v == parsed.value
  {
    if parsed.None? || parsed.value == 0 then d else parsed.value
  }

  const DefaultPage := 1
  const DefaultLimit := 5

  /** `Math.ceil(count / limit)` for a positive limit. */
  function TotalPages(count: nat, limit: nat): (pages: nat)
    requires limit > 0
    ensures count <= pages * limit
    ensures pages == 0 || (pages - 1) * limit < count
    ensures pages == 0 <==> count == 0
  {
    var pages := (count + limit - 1) / limit;
    CeilingDivision(count, limit, pages);
    pages
  }

  /** The quotient `(count + limit - 1) / limit` is the least page count that holds `count` rows. */
  lemma {:induction false} CeilingDivision(count: nat, limit: nat, pages: nat)
    requires limit > 0 && pages == (count + limit - 1) / limit
    ensures count <= pages * limit
    ensures pages == 0 || (pages - 1) * limit < count
    ensures pages == 0 <==> count == 0
  {
    var q := (count + limit - 1) / limit;
    var rem := (count + limit - 1) % limit;
    assert count + limit - 1 == q * limit + rem && 0 <= rem < limit;
    if q > 0 {
      assert (q - 1) * limit == q * limit - limit;
    }
  }

  /** The e-mail and display name an `include: [{ model: User }]` attaches. */
  datatype UserInfo = UserInfo(email: string, displayName: string)

  /** The included user, or null when the row names no existing user. */
  function UserInfoOf(users: map<Id, User>, id: Id): (u: Option<UserInfo>)
    ensures u.Some? <==> id in users
    ensures u.Some? ==> u.value == UserInfo(users[id].email, users[id].displayName)
  {
    if id in users then Some(UserInfo(users[id].email, users[id].displayName)) else None
  }

  /** One row of the `getAllBoards` answer: the membership, its user, and the included attributes
      of its board (`board_id`, `board_name`, `description`, `key`) with the owner. */
  datatype BoardRow = BoardRow(memberId: Id, user: Option<UserInfo>, boardId: Id, boardName: string,
                               description: Option<string>, key: string, owner: Option<UserInfo>)

  datatype BoardsPage = BoardsPage(boards: seq<BoardRow>, numOfPage: nat, totalPages: nat)

  /** The memberships of `caller` whose board exists and whose name contains `query`
      (the inner join with `board_name LIKE %query%`). */
  function Matching(db: Db, caller: Id, query: string): (s: set<Id>)
    ensures forall m :: m in s <==>
      && m in db.members && db.members[m].userId == caller
      && db.members[m].boardId in db.boards
      && Contains(db.boards[db.members[m].boardId].boardName, query)
  {
    set m | m in db.members && db.members[m].userId == caller && db.members[m].boardId in db.boards
                && Contains(db.boards[db.members[m].boardId].boardName, query)
  }

  /** The answer row for membership `m`. */
  function RowOf(db: Db, m: Id): BoardRow
    requires m in db.members && db.members[m].boardId in db.boards
  {
    var b := db.members[m].boardId;
    BoardRow(m, UserInfoOf(db.users, db.members[m].userId), b, db.boards[b].boardName,
             db.boards[b].description, db.boards[b].key, UserInfoOf(db.users, db.boards[b].ownerId))
  }

  /** `rows.map(RowOf)`. */
  function RowsOf(db: Db, ids: seq<Id>): (rows: seq<BoardRow>)
    requires forall i :: 0 <= i < |ids| ==> ids[i] in db.members && db.members[ids[i]].boardId in db.boards
    ensures |rows| == |ids|
    ensures forall i :: 0 <= i < |ids| ==> rows[i] == RowOf(db, ids[i])
  {
    if ids == [] then [] else [RowOf(db, ids[0])] + RowsOf(db, ids[1..])
  }

  /** The slice `findAndCountAll({ limit, offset })` returns: the rows of `all` from `offset`,
      at most `limit` of them. */
  function Page<T>(all: seq<T>, offset: nat, limit: nat): (ids: seq<T>)
    ensures |ids| <= limit
    ensures offset >= |all| ==> ids == []
    ensures offset < |all| ==> |ids| == if limit <= |all| - offset then limit else |all| - offset
    ensures forall i :: 0 <= i < |ids| ==> offset + i < |all| && ids[i] == all[offset + i]
  {
    var lo := if offset <= |all| then offset else |all|;
    var hi := if offset + limit <= |all| then offset + limit else |all|;
    all[lo..hi]
  }

  /** `(numOfPage - 1) * limit`. */
  function Offset(page: nat, limit: nat): nat
    requires page >= 1
  {
    (page - 1) * limit
  }

  /** The ids of one page of the ascending enumeration of `s`: those ranked from `offset`
      up to `offset + size`, as many as `s` has. */
  function PageOf(s: set<nat>, offset: nat, size: nat): (ids: seq<nat>)
    ensures forall i :: 0 <= i < |ids| ==> ids[i] in s
    ensures forall i, j :: 0 <= i < j < |ids| ==> ids[i] < ids[j]
    ensures |ids| == if offset >= |s| then 0 else if size <= |s| - offset then size else |s| - offset
    ensures forall i :: 0 <= i < |ids| ==> Rank(s, ids[i]) == offset + i
    ensures forall m :: m in ids <==> m in s && offset <= Rank(s, m) < offset + size
  {
    PageFacts(s, offset, size);
    Page(Ascending(s), offset, size)
  }

  /** `getAllBoards`: one page of the caller's boards whose name contains `query`, with the page
      number and the page count. An absent `query` is the empty text, which every name contains. */
  function GetAllBoards(db: Db, caller: Id, query: string, numOfPage: Option<nat>, limit: Option<nat>)
    : (r: BoardsPage)
    ensures r.numOfPage == OrDefault(numOfPage, DefaultPage) && r.numOfPage >= 1
    ensures r.totalPages == TotalPages(|Matching(db, caller, query)|, OrDefault(limit, DefaultLimit))
    // The rows are those of the memberships on page `numOfPage`, in order.
    ensures MemberIds(r.boards) ==
      PageOf(Matching(db, caller, query), Offset(r.numOfPage, OrDefault(limit, DefaultLimit)), OrDefault(limit, DefaultLimit))
    ensures forall i :: 0 <= i < |r.boards| ==>
      && r.boards[i].memberId in Matching(db, caller, query)
      && r.boards[i] == RowOf(db, r.boards[i].memberId)
  {
    var page := OrDefault(numOfPage, DefaultPage);
    var size := OrDefault(limit, DefaultLimit);
    var s := Matching(db, caller, query);
    var ids := PageOf(s, Offset(page, size), size);
    var rows := RowsOf(db, ids);
    assert MemberIds(rows) == ids;
    BoardsPage(rows, page, TotalPages(|s|, size))
  }

  /** A page of the ascending enumeration of `s` holds the elements ranked in its window, in order. */
  lemma PageFacts(s: set<nat>, offset: nat, size: nat)
    ensures var ids := Page(Ascending(s), offset, size);
      && (forall i :: 0 <= i < |ids| ==> ids[i] in s)
      && (forall i, j :: 0 <= i < j < |ids| ==> ids[i] < ids[j])
      && |ids| == (if offset >= |s| then 0 else if size <= |s| - offset then size else |s| - offset)
      && (forall i :: 0 <= i < |ids| ==> Rank(s, ids[i]) == offset + i)
      && (forall m :: m in ids <==> m in s && offset <= Rank(s, m) < offset + size)
  {
    var ids := Page(Ascending(s), offset, size);
    PageShape(s, offset, size);
    forall i | 0 <= i < |ids| ensures ids[i] in s && Rank(s, ids[i]) == offset + i {
      PageMember(s, offset, size, i);
      PageRank(s, offset, size, i);
    }
    RankedWindowAll(s, ids, offset, size);
  }

  /** Such a page is ascending and as long as the window allows. */
  lemma PageShape(s: set<nat>, offset: nat, size: nat)
    ensures var ids := Page(Ascending(s), offset, size);
      && (forall i, j :: 0 <= i < j < |ids| ==> ids[i] < ids[j])
      && |ids| == (if offset >= |s| then 0 else if size <= |s| - offset then size else |s| - offset)
  {
    var all := Ascending(s);
    var ids := Page(all, offset, size);
    forall i, j | 0 <= i < j < |ids| ensures ids[i] < ids[j] {
      assert ids[i] == all[offset + i] && ids[j] == all[offset + j];
    }
  }

  /** One element of such a page. */
  lemma PageRank(s: set<nat>, offset: nat, size: nat, i: nat)
    requires i < |Page(Ascending(s), offset, size)|
    ensures Rank(s, Page(Ascending(s), offset, size)[i]) == offset + i
  {
    var all := Ascending(s);
    assert offset + i < |all| && Page(all, offset, size)[i] == all[offset + i];
    AscendingRank(s, offset + i);
  }

  /** Every element of such a page is in the set. */
  lemma PageMember(s: set<nat>, offset: nat, size: nat, i: nat)
    requires i < |Page(Ascending(s), offset, size)|
    ensures Page(Ascending(s), offset, size)[i] in s
  {
    var all := Ascending(s);
    assert offset + i < |all| && Page(all, offset, size)[i] == all[offset + i];
    assert all[offset + i] in all;
  }

  /** The membership ids of the listed rows, in order. */
  function MemberIds(rows: seq<BoardRow>): (ids: seq<Id>)
    ensures |ids| == |rows| && forall i :: 0 <= i < |rows| ==> ids[i] == rows[i].memberId
    ensures forall m :: m in ids <==> exists i :: 0 <= i < |rows| && rows[i].memberId == m
  {
    if rows == [] then [] else [rows[0].memberId] + MemberIds(rows[1..])
  }

  /** A sequence of elements of `s` that holds the ranks from `offset` on, as many as `s` has up to
      `size` of them, holds exactly the elements whose rank is in that window. */
  lemma RankedWindowAll(s: set<nat>, ids: seq<nat>, offset: nat, size: nat)
    requires forall i :: 0 <= i < |ids| ==> ids[i] in s && Rank(s, ids[i]) == offset + i
    requires |ids| == if offset >= |s| then 0 else if size <= |s| - offset then size else |s| - offset
    ensures forall m :: m in ids <==> m in s && offset <= Rank(s, m) < offset + size
  {
    forall m: nat | true ensures m in ids <==> m in s && offset <= Rank(s, m) < offset + size {
      RankedWindow(s, ids, offset, size, m);
    }
  }

  /** One element of the window. */
  lemma RankedWindow(s: set<nat>, ids: seq<nat>, offset: nat, size: nat, m: nat)
    requires forall i :: 0 <= i < |ids| ==> ids[i] in s && Rank(s, ids[i]) == offset + i
    requires |ids| == if offset >= |s| then 0 else if size <= |s| - offset then size else |s| - offset
    ensures m in ids <==> m in s && offset <= Rank(s, m) < offset + size
  {
    if m in s && offset <= Rank(s, m) < offset + size {
      var all := Ascending(s);
      var k :| 0 <= k < |all| && all[k] == m;
      AscendingRank(s, k);
      RankInjective(s, ids[k - offset], m);
    }
  }


  /** For a positive factor, `a * c < b * c` only when `a < b`. */
  lemma {:induction false} MulLessCancel(a: nat, b: nat, c: nat)
    requires c > 0 && a * c < b * c
    ensures a < b
    decreases a
  {
    if a > 0 {
      assert b * c > 0;
      assert b != 0;
      assert (a - 1) * c == a * c - c && (b - 1) * c == b * c - c;
      MulLessCancel(a - 1, b - 1, c);
    }
  }

  /** The row at index `idx` of the ascending order is on page `idx / limit + 1`, which is within
      the page count; no other page lists it. */
  lemma {:induction false} PageOfIndex(count: nat, limit: nat, idx: nat)
    requires limit > 0 && idx < count
    ensures var p := idx / limit + 1;
      && 1 <= p <= TotalPages(count, limit)
      && Offset(p, limit) <= idx < Offset(p, limit) + limit
    ensures forall p :: p >= 1 && Offset(p, limit) <= idx < Offset(p, limit) + limit ==> p == idx / limit + 1
  {
    var q := idx / limit;
    assert idx == q * limit + idx % limit;
    var pages := TotalPages(count, limit);
    assert q * limit < pages * limit;
    MulLessCancel(q, pages, limit);
    forall p | p >= 1 && Offset(p, limit) <= idx < Offset(p, limit) + limit ensures p == q + 1 {
      OnlyPageOf(limit, idx, p);
    }
  }

  /** A page whose window holds `idx` is page `idx / limit + 1`. */
  lemma OnlyPageOf(limit: nat, idx: nat, p: nat)
    requires limit > 0 && p >= 1 && Offset(p, limit) <= idx < Offset(p, limit) + limit
    ensures p == idx / limit + 1
  {
    var q := idx / limit;
    assert idx == q * limit + idx % limit;
    assert (p - 1) * limit + limit == p * limit && q * limit + limit == (q + 1) * limit;
    MulLessCancel(q, p, limit);
    MulLessCancel(p - 1, q + 1, limit);
  }

  /** Every listed membership is on exactly one page, within the page count. */
  lemma {:induction false} EachMatchOnOnePage(db: Db, caller: Id, query: string, limit: nat, m: Id)
    requires limit > 0 && m in Matching(db, caller, query)
    ensures exists p :: (1 <= p <= TotalPages(|Matching(db, caller, query)|, limit)
                         && m in Page(Ascending(Matching(db, caller, query)), Offset(p, limit), limit))
    ensures forall p, q ::
      (p >= 1 && q >= 1
       && m in Page(Ascending(Matching(db, caller, query)), Offset(p, limit), limit)
       && m in Page(Ascending(Matching(db, caller, query)), Offset(q, limit), limit)) ==> p == q
  {
    var all := Ascending(Matching(db, caller, query));
    OnOnePage(all, limit, m);
  }

  /** In a list without repeats, each element is on exactly one page, within the page count. */
  lemma {:induction false} OnOnePage(all: seq<Id>, limit: nat, m: Id)
    requires limit > 0 && m in all
    requires forall i, j :: 0 <= i < j < |all| ==> all[i] < all[j]
    ensures exists p :: 1 <= p <= TotalPages(|all|, limit) && m in Page(all, Offset(p, limit), limit)
    ensures forall p, q ::
      (p >= 1 && q >= 1 && m in Page(all, Offset(p, limit), limit) && m in Page(all, Offset(q, limit), limit)) ==> p == q
  {
    var idx :| 0 <= idx < |all| && all[idx] == m;
    OnPageOfIndex(all, limit, idx);
    forall p, q | p >= 1 && q >= 1 && m in Page(all, Offset(p, limit), limit) && m in Page(all, Offset(q, limit), limit)
      ensures p == q
    {
      OnlyOnPageOfIndex(all, limit, idx, p);
      OnlyOnPageOfIndex(all, limit, idx, q);
    }
  }

  /** The element at index `idx` is on page `idx / limit + 1`, which is within the page count. */
  lemma OnPageOfIndex<T>(all: seq<T>, limit: nat, idx: nat)
    requires limit > 0 && idx < |all|
    ensures var p := idx / limit + 1;
      1 <= p <= TotalPages(|all|, limit) && all[idx] in Page(all, Offset(p, limit), limit)
  {
    PageOfIndex(|all|, limit, idx);
    var p := idx / limit + 1;
    assert Page(all, Offset(p, limit), limit)[idx - Offset(p, limit)] == all[idx];
  }

  /** In a list without repeats, the element at index `idx` is on no page but `idx / limit + 1`. */
  lemma OnlyOnPageOfIndex(all: seq<Id>, limit: nat, idx: nat, p: nat)
    requires limit > 0 && idx < |all| && p >= 1 && all[idx] in Page(all, Offset(p, limit), limit)
    requires forall i, j :: 0 <= i < j < |all| ==> all[i] < all[j]
    ensures p == idx / limit + 1
  {
    var ids := Page(all, Offset(p, limit), limit);
    var i :| 0 <= i < |ids| && ids[i] == all[idx];
    assert all[Offset(p, limit) + i] == all[idx];
    assert Offset(p, limit) + i == idx;
    PageOfIndex(|all|, limit, idx);
  }

  // ---------------------------------------------------------------- getBoardById

  /** One entry of `members`: the member's id with the included user's e-mail and display name. */
  datatype MemberView = MemberView(userId: Id, email: Option<string>, displayName: Option<string>)

  /** The projection `members.map(...)` applies to a raw membership row. */
  function MemberViewOf(users: map<Id, User>, userId: Id): (v: MemberView)
    ensures v.userId == userId
    ensures v.email.Some? <==> userId in users
    ensures v.displayName.Some? <==> userId in users
    ensures userId in users ==> v.email == Some(users[userId].email) && v.displayName == Some(users[userId].displayName)
  {
    if userId in users then MemberView(userId, Some(users[userId].email), Some(users[userId].displayName))
    else MemberView(userId, None, None)
  }

  /** The board with its owner and the ids of its columns by ascending `sequence`. */
  datatype BoardView = BoardView(board: Board, owner: Option<UserInfo>, columns: seq<Id>)

  datatype BoardDetail = BoardDetail(board: Option<BoardView>, members: seq<MemberView>)

  function SequenceOf(columns: map<Id, Column>, id: Id): int
  {
    if id in columns then columns[id].sequence else 0
  }

  /** The ids of the columns of a board. */
  function ColumnsOn(columns: map<Id, Column>, boardId: Id): (s: set<Id>)
    ensures forall c :: c in s <==> c in columns && columns[c].boardId == boardId
  {
    set c | c in columns && columns[c].boardId == boardId
  }

  /** Column ids sorted by `SequenceOf` are sorted by sequence once they are all columns. */
  lemma {:induction false} BySequence(columns: map<Id, Column>, ids: seq<Id>)
    requires forall c :: c in ids ==> c in columns
    requires SortedBy(ids, (id: Id) => SequenceOf(columns, id))
    ensures forall i, j :: 0 <= i < j < |ids| ==> columns[ids[i]].sequence <= columns[ids[j]].sequence
  {
    var key := (id: Id) => SequenceOf(columns, id);
    forall i, j | 0 <= i < j < |ids| ensures columns[ids[i]].sequence <= columns[ids[j]].sequence {
      assert ids[i] in ids && ids[j] in ids;
      assert key(ids[i]) <= key(ids[j]);
    }
  }

  /** The columns of a board, by ascending sequence (`order: [["sequence", "ASC"]]`). */
  function ColumnsOf(columns: map<Id, Column>, boardId: Id): (ids: seq<Id>)
    ensures Distinct(ids)
    ensures forall c :: c in ids <==> c in columns && columns[c].boardId == boardId
    ensures forall i, j :: 0 <= i < j < |ids| ==> columns[ids[i]].sequence <= columns[ids[j]].sequence
  {
    var ids := Ordered(ColumnsOn(columns, boardId), (id: Id) => SequenceOf(columns, id));
    BySequence(columns, ids);
    ids
  }

  /** The ids of the memberships of a board. */
  function MembershipsOn(members: map<Id, BoardMember>, boardId: Id): (s: set<Id>)
    ensures forall m :: m in s <==> m in members && members[m].boardId == boardId
  {
    set m | m in members && members[m].boardId == boardId
  }

  /** The memberships of a board, by ascending id, each once. */
  function MembershipsOf(members: map<Id, BoardMember>, boardId: Id): (ids: seq<Id>)
    ensures forall m :: m in ids <==> m in members && members[m].boardId == boardId
    ensures forall i, j :: 0 <= i < j < |ids| ==> ids[i] < ids[j]
    ensures |ids| == |MembershipsOn(members, boardId)|
  {
    Ascending(MembershipsOn(members, boardId))
  }

  /** `filteredMembers`. */
  function MemberViews(users: map<Id, User>, members: map<Id, BoardMember>, ids: seq<Id>): (vs: seq<MemberView>)
    requires forall i :: 0 <= i < |ids| ==> ids[i] in members
    ensures |vs| == |ids|
    ensures forall i :: 0 <= i < |ids| ==> vs[i] == MemberViewOf(users, members[ids[i]].userId)
  {
    if ids == [] then [] else [MemberViewOf(users, members[ids[0]].userId)] + MemberViews(users, members, ids[1..])
  }

  /** The `board` part of the answer: the row with its owner and its columns, or null. */
  function BoardViewOf(db: Db, boardId: Id): (v: Option<BoardView>)
    ensures v.Some? <==> boardId in db.boards
    ensures v.Some? ==>
      && v.value.board == db.boards[boardId]
      && v.value.owner == UserInfoOf(db.users, db.boards[boardId].ownerId)
      && Distinct(v.value.columns)
      && (forall c :: c in v.value.columns <==> c in db.columns && db.columns[c].boardId == boardId)
      && (forall i, j :: 0 <= i < j < |v.value.columns| ==>
            db.columns[v.value.columns[i]].sequence <= db.columns[v.value.columns[j]].sequence)
  {
    if boardId in db.boards
    then Some(BoardView(db.boards[boardId], UserInfoOf(db.users, db.boards[boardId].ownerId),
                        ColumnsOf(db.columns, boardId)))
    else None
  }

  /** The `members` part of the answer: one projected entry per membership of the board. */
  function MembersView(db: Db, boardId: Id): (vs: seq<MemberView>)
    ensures |vs| == |MembershipsOf(db.members, boardId)|
            == |MembershipsOn(db.members, boardId)|
    ensures forall i :: 0 <= i < |vs| ==>
      vs[i] == MemberViewOf(db.users, db.members[MembershipsOf(db.members, boardId)[i]].userId)
    ensures forall i :: 0 <= i < |vs| ==>
      && IsMember(db.members, vs[i].userId, boardId)
      && vs[i] == MemberViewOf(db.users, vs[i].userId)
    ensures forall m :: m in db.members && db.members[m].boardId == boardId ==>
      exists i :: 0 <= i < |vs| && vs[i].userId == db.members[m].userId
  {
    var ids := MembershipsOf(db.members, boardId);
    ViewsOfMemberships(db.users, db.members, boardId, ids);
    MemberViews(db.users, db.members, ids)
  }

  /** Projecting the memberships of a board lists exactly the board's members. */
  lemma ViewsOfMemberships(users: map<Id, User>, members: map<Id, BoardMember>, boardId: Id, ids: seq<Id>)
    requires forall m :: m in ids <==> m in members && members[m].boardId == boardId
    ensures var views := MemberViews(users, members, ids);
      && (forall i :: 0 <= i < |views| ==>
            IsMember(members, views[i].userId, boardId) && views[i] == MemberViewOf(users, views[i].userId))
      && (forall m :: m in members && members[m].boardId == boardId ==>
            exists i :: 0 <= i < |views| && views[i].userId == members[m].userId)
  {
    var views := MemberViews(users, members, ids);
    forall i | 0 <= i < |views| ensures IsMember(members, views[i].userId, boardId) {
      assert ids[i] in ids;
      assert members[ids[i]] == BoardMember(boardId, views[i].userId);
    }
    EveryMemberViewed(users, members, boardId, ids);
  }

  /** Every membership of the board has its entry among the views. */
  lemma {:induction false} EveryMemberViewed(users: map<Id, User>, members: map<Id, BoardMember>, boardId: Id, ids: seq<Id>)
    requires forall m :: m in ids <==> m in members && members[m].boardId == boardId
    ensures forall m: Id :: m in members && members[m].boardId == boardId ==>
      exists i :: 0 <= i < |ids| && MemberViews(users, members, ids)[i].userId == members[m].userId
  {
    var views := MemberViews(users, members, ids);
    assert views == MemberViews(users, members, ids);
    forall m: Id | m in members && members[m].boardId == boardId
      ensures exists i :: 0 <= i < |ids| && views[i].userId == members[m].userId
    {
      assert m in ids;
      var i :| 0 <= i < |ids| && ids[i] == m;
      assert views[i] == MemberViewOf(users, members[ids[i]].userId);
      assert 0 <= i < |views| && views[i].userId == members[m].userId;
    }
  }

  /** `getBoardById`: a member sees the board (null once it is gone), its columns in sequence
      order and every membership of the board projected to user id, e-mail and display name. */
  function GetBoardById(db: Db, caller: Id, boardId: Id): (r: Result<BoardDetail>)
    ensures r.Err? <==> !IsMember(db.members, caller, boardId)
    ensures r.Err? ==> r.error == UnAuthenticated("Your are not a member in the board")
    ensures r.Ok? ==> r.value == BoardDetail(BoardViewOf(db, boardId), MembersView(db, boardId))
  {
    if !IsMember(db.members, caller, boardId) then Err(UnAuthenticated("Your are not a member in the board"))
    else Ok(BoardDetail(BoardViewOf(db, boardId), MembersView(db, boardId)))
  }

  // ---------------------------------------------------------------- updateBoardById

  /** `Board.update({ board_name, key, description })`: a field absent from the body keeps its value.
      The description may also be given as null (`Some(None)`), which clears it. */
  function Edited(b: Board, boardName: Option<string>, key: Option<string>, description: Option<Option<string>>): (e: Board)
    ensures e.ownerId == b.ownerId
    ensures e.boardName == (if boardName.Some? then boardName.value else b.boardName)
    ensures e.key == (if key.Some? then key.value else b.key)
    ensures e.description == (if description.Some? then description.value else b.description)
    ensures description == Some(None) ==> e.description.None?
  {
    Board(if boardName.Some? then boardName.value else b.boardName,
          if key.Some? then key.value else b.key,
          if description.Some? then description.value else b.description,
          b.ownerId)
  }

  /** An edit with nothing in the body changes nothing, and applying the same edit twice is
      applying it once. */
  lemma EditFacts(b: Board, boardName: Option<string>, key: Option<string>, description: Option<Option<string>>)
    ensures Edited(b, None, None, None) == b
    ensures Edited(Edited(b, boardName, key, description), boardName, key, description)
         == Edited(b, boardName, key, description)
  {
  }

  /** `updateBoardById`: only the owner may edit the board. */
  method UpdateBoardById(st: Store, caller: Id, boardId: Id, boardName: Option<string>, key: Option<string>,
                         description: Option<Option<string>>)
    returns (r: Result<string>)
    requires st.Valid()
    modifies st`boards
    ensures st.Valid()
    ensures !IsOwner(old(st.boards), caller, boardId) ==>
      r == Err(UnAuthenticated(NotOwner)) && st.Tables() == old(st.Tables())
    ensures IsOwner(old(st.boards), caller, boardId) ==>
      && r == Ok("Updated your board")
      && st.Tables() == old(st.Tables()).(boards := old(st.boards)[boardId :=
           Edited(old(st.boards)[boardId], boardName, key, description)])
  {
    if !IsOwner(st.boards, caller, boardId) {
      return Err(UnAuthenticated(NotOwner));
    }
    st.boards := st.boards[boardId := Edited(st.boards[boardId], boardName, key, description)];
    r := Ok("Updated your board");
  }

  // ---------------------------------------------------------------- deleteBoardById

  /** The tables after `deleteBoardById`: the board's assignments, then its tasks, then the board go.
      The board's memberships and columns reference it through associations with the default
      `onDelete` of `SET NULL`, so deleting the board nulls their `board_id`. A row with a null board
      id matches none of the handlers' lookups, so the model drops those rows. */
  function BoardDeleted(db: Db, boardId: Id): Db
  {
    db.(assignments := map a | a in db.assignments && db.assignments[a].boardId != boardId :: db.assignments[a],
        tasks := map t | t in db.tasks && db.tasks[t].boardId != boardId :: db.tasks[t],
        boards := db.boards - {boardId},
        members := map m | m in db.members && db.members[m].boardId != boardId :: db.members[m],
        columns := map c | c in db.columns && db.columns[c].boardId != boardId :: db.columns[c])
  }

  /** Deleting a board leaves no task, assignment, membership or column of it, keeps every row of
      other boards, leaves users and invitations alone, and keeps the tables consistent. Nobody is a
      member of the deleted board afterwards. */
  lemma {:induction false} BoardDeletedFacts(db: Db, boardId: Id, next: Id)
    requires Consistent(db, next)
    ensures var after := BoardDeleted(db, boardId);
      && boardId !in after.boards
      && (forall b :: b in db.boards && b != boardId ==> b in after.boards && after.boards[b] == db.boards[b])
      && (forall t :: t in after.tasks <==> t in db.tasks && db.tasks[t].boardId != boardId)
      && (forall a :: a in after.assignments <==> a in db.assignments && db.assignments[a].boardId != boardId)
      && (forall m :: m in after.members <==> m in db.members && db.members[m].boardId != boardId)
      && (forall c :: c in after.columns <==> c in db.columns && db.columns[c].boardId != boardId)
      && (forall t :: t in after.tasks ==> after.tasks[t] == db.tasks[t])
      && (forall a :: a in after.assignments ==> after.assignments[a] == db.assignments[a])
      && (forall m :: m in after.members ==> after.members[m] == db.members[m])
      && (forall c :: c in after.columns ==> after.columns[c] == db.columns[c])
      && after.users == db.users && after.invitations == db.invitations
      && Consistent(after, next)
    ensures forall u :: !IsMember(BoardDeleted(db, boardId).members, u, boardId)
    ensures forall u, b :: b != boardId ==>
      (IsMember(BoardDeleted(db, boardId).members, u, b) <==> IsMember(db.members, u, b))
  {
    BoardDeletedRows(db, boardId);
    BoardDeletedConsistent(db, boardId, next);
    BoardDeletedMembers(db, boardId);
  }

  /** `BoardDeleted` row by row; this only splits the proof of `BoardDeletedFacts` and states no
      property of its own. */
  lemma BoardDeletedRows(db: Db, boardId: Id)
    ensures var after := BoardDeleted(db, boardId);
      && boardId !in after.boards
      && (forall b :: b in db.boards && b != boardId ==> b in after.boards && after.boards[b] == db.boards[b])
      && (forall t :: t in after.tasks <==> t in db.tasks && db.tasks[t].boardId != boardId)
      && (forall a :: a in after.assignments <==> a in db.assignments && db.assignments[a].boardId != boardId)
      && (forall m :: m in after.members <==> m in db.members && db.members[m].boardId != boardId)
      && (forall c :: c in after.columns <==> c in db.columns && db.columns[c].boardId != boardId)
      && (forall t :: t in after.tasks ==> after.tasks[t] == db.tasks[t])
      && (forall a :: a in after.assignments ==> after.assignments[a] == db.assignments[a])
      && (forall m :: m in after.members ==> after.members[m] == db.members[m])
      && (forall c :: c in after.columns ==> after.columns[c] == db.columns[c])
      && after.users == db.users && after.invitations == db.invitations
  {
  }

  /** After the delete, membership of the deleted board fails for everyone and membership of
      every other board is what it was. */
  lemma BoardDeletedMembers(db: Db, boardId: Id)
    ensures forall u :: !IsMember(BoardDeleted(db, boardId).members, u, boardId)
    ensures forall u, b :: b != boardId ==>
      (IsMember(BoardDeleted(db, boardId).members, u, b) <==> IsMember(db.members, u, b))
  {
    var after := BoardDeleted(db, boardId).members;
    forall u, b | b != boardId && IsMember(db.members, u, b) ensures IsMember(after, u, b) {
      var m :| m in db.members && db.members[m] == BoardMember(b, u);
      assert m in after;
    }
  }

  /** Deleting a board keeps the tables consistent. */
  lemma BoardDeletedConsistent(db: Db, boardId: Id, next: Id)
    requires Consistent(db, next)
    ensures Consistent(BoardDeleted(db, boardId), next)
  {
    var after := BoardDeleted(db, boardId);
    FilteredRefs(db.assignments, db.tasks, boardId);
    assert BoardRefsBelow(after, next);
  }

  /** Dropping the tasks and the assignments of one board keeps every remaining assignment
      pointing at a remaining task of its board, and keeps pairs unique. */
  lemma FilteredRefs(assignments: map<Id, Assignment>, tasks: map<Id, Task>, boardId: Id)
    requires AssignmentsReferToTasks(assignments, tasks) && AssignmentPairsUnique(assignments)
    ensures var kept := map a | a in assignments && assignments[a].boardId != boardId :: assignments[a];
      && AssignmentsReferToTasks(kept, map t | t in tasks && tasks[t].boardId != boardId :: tasks[t])
      && AssignmentPairsUnique(kept)
  {
    var kept := map a | a in assignments && assignments[a].boardId != boardId :: assignments[a];
    var left := map t | t in tasks && tasks[t].boardId != boardId :: tasks[t];
    forall a | a in kept ensures kept[a].taskId in left && left[kept[a].taskId].boardId == kept[a].boardId {
      var t := assignments[a].taskId;
      assert t in tasks && tasks[t].boardId == assignments[a].boardId;
    }
  }

  /** `deleteBoardById`: only the owner may delete the board. */
  method DeleteBoardById(st: Store, caller: Id, boardId: Id) returns (r: Result<string>)
    requires st.Valid()
    modifies st`assignments, st`tasks, st`boards, st`members, st`columns
    ensures st.Valid()
    ensures !IsOwner(old(st.boards), caller, boardId) ==>
      r == Err(UnAuthenticated(NotOwner)) && st.Tables() == old(st.Tables())
    ensures IsOwner(old(st.boards), caller, boardId) ==>
      r == Ok("Deleted your board") && st.Tables() == BoardDeleted(old(st.Tables()), boardId)
  {
    if !IsOwner(st.boards, caller, boardId) {
      return Err(UnAuthenticated(NotOwner));
    }
    var after := BoardDeleted(st.Tables(), boardId);
    BoardDeletedFacts(st.Tables(), boardId, st.nextId);
    // `Assignment.destroy`, `Task.destroy`, then `Board.destroy`, each on the rows of the board;
    // the last one nulls the board id of its memberships and columns.
    st.assignments := after.assignments;
    st.tasks := after.tasks;
    st.boards := after.boards;
    st.members := after.members;
    st.columns := after.columns;
    r := Ok("Deleted your board");
  }
}
