# KABI board server — a Dafny model of its handlers

KABI is a Kanban collaboration backend. It is an Express + Sequelize server in TypeScript. Users
register, verify their e-mail and log in. They then create boards, invite members, and manage the
tasks on a board's columns. They can reorder tasks, hand a task over to another member, and read
their notifications. A socket.io registry of online users receives pushes about invitations and
assignments.

This project models the request handlers of that server and proves what they promise.

The tables are maps keyed by id in the `Store` class (`store.dfy`). Every row of a table is a
datatype taken from its Sequelize schema (`models.dfy`). A handler that writes is a method on the
store. It checks its guards in the source's order, returns a `Result` (`errors.dfy`), and states both
the answer and the whole new state of the tables. A handler that only reads is a function of the
tables.

The store keeps an invariant, `Consistent`, which every write keeps:
- every id is below the next id the store will issue;
- e-mail addresses are unique;
- every assignment names an existing task of its own board;
- each (assignee, task) pair has at most one assignment.

The online-user registry is the `Realtime` class (`presence.dfy`). A push to a socket is an append
to its `outbox`.

Modelling choices:
- Row ids are UUIDs in the source. Here they are naturals drawn from the store's counter: unique
  and fresh, as the UUIDs are.
- A query without an ORDER BY has no defined order in SQL. The model lists its rows by ascending
  id, so that its results are deterministic.
- A request field the handler tests with `!x` is a string in which `""` stands for absent or
  empty. An id that may be absent is an `Option<Id>`.
- Clock readings (`createdAt`), bcrypt and jsonwebtoken are parameters:
  - `now` is the time of the request;
  - `encodedPassword` is the bcrypt hash;
  - `passwordMatches` stands for `bcrypt.compare`;
  - `sign` stands for `jwt.sign`;
  - `check` and `valid` stand for `jwt.verify`.

Files:
- `common.dfy`: `Option`, `Id`, `Status`.
- `errors.dfy`: the error classes with their status codes, and `Result`.
- `collections.dfy`: ordering sets of ids (ascending, or sorted by a key).
- `strings.dfy`: JavaScript's `split` for one character, with `join`, `startsWith` and `includes`.
- `models.dfy`: the rows, the defaults of new rows, the lookups, and `Consistent`.
- `store.dfy`: the tables, and the id-allocating inserts.
- `presence.dfy`: `onlineUsers` and the pushes (`src/app.ts`).
- `task_model.dfy`: the `beforeCreate` numbering hook and the task-to-assignment cascade (`src/models/Task.ts`).
- `task_controller.dfy`, `board_controller.dfy`, `auth_controller.dfy`,
  `notification_controller.dfy`, `user_controller.dfy`: one module per controller.
- `error_handler.dfy`: the error middleware.

## Model

| member | source | states |
|---|---|---|
| Errors.ApiError.StatusCode | src/errors/not-found.ts:5-8 | Every error class carries a status between 400 and 500 (404, 409, 403, 500; 400 and 401 for bad request and unauthenticated). Only an unexpected error has none. |
| Models.NewUser | src/models/User.ts:50-54 | An inserted user is unverified and has the given e-mail, password and display name. |
| Models.NewInvitation | src/models/Invitation.ts:51-68 | An inserted invitation is pending and unseen, with the given recipient, sender and board. |
| Models.NewAssignment | src/models/Assignment.ts:66-70 | An inserted assignment is unseen, with the given assignee, sender, task and board. |
| Models.UserByEmail | src/models/User.ts:37-41 | The user found has that e-mail. None means no user has it. With unique e-mails, the user with that e-mail is the one found. |
| Store.Store.InsertUser | src/controllers/auth.controller.ts:81-85 | Adds exactly one user row under a fresh id. Every other table is unchanged, and the invariant holds. |
| Store.Store.InsertBoard | src/controllers/board.controller.ts:22-27 | Adds exactly one board row under a fresh id. Everything else is unchanged. |
| Store.Store.InsertInvitation | src/controllers/board.controller.ts:39 | Adds one invitation row under a fresh id, for a board id already issued. |
| Store.Store.InsertMember | src/controllers/board.controller.ts:63-66 | Adds one membership row under a fresh id. |
| Store.Store.InsertColumn | src/controllers/board.controller.ts:67-84 | Adds one column row under a fresh id. |
| Store.Store.InsertTask | src/controllers/task.controller.ts:36-41 | Adds one task row under a fresh id, for a board id already issued. Every other table is unchanged, and the invariant holds. |
| TaskModel.MaxSequence | src/models/Task.ts:82-84 | It bounds every sequence on the board. When it is not 0, some task of the board has it. |
| TaskModel.BeforeCreate | src/models/Task.ts:81-87 | The new task is the given one, with position equal to sequence. Its sequence is above every sequence on its board, is 1 on an empty board, and otherwise is one more than an existing sequence. |
| TaskModel.OtherBoardsIgnored | src/models/Task.ts:83 | A task of another board does not change the next sequence of a board. |
| TaskModel.CreateLeavesOtherBoards | src/models/Task.ts:83 | A creation leaves every existing task unchanged. |
| TaskModel.CreateAdvancesSequence | src/models/Task.ts:82-86 | After a creation, the board's next sequence is exactly one more than the created task's. |
| TaskModel.ConsecutiveCreations | src/models/Task.ts:82-85 | Two creations in a row on one board get consecutive sequences. |
| TaskModel.SequenceReissuedAfterDelete | src/models/Task.ts:82-85 | For any tasks: create a task, then delete it, and the next task created on that board gets the deleted task's sequence again. |
| TaskModel.DeleteNeverRaisesSequence | src/models/Task.ts:82-85 | Deleting any task never makes the next sequence of any board larger. |
| TaskModel.DeleteTaskCascade | src/models/Task.ts:92-97 | Removing a task with its assignments leaves no assignment of it. Other assignments are unchanged. Assignments still name existing tasks, and pairs stay unique. |
| TaskController.CreateTask | src/controllers/task.controller.ts:16-55 | BadRequest when a field or the caller is missing; UnAuthenticated for a non-member; no write in either case. Otherwise exactly one task is added under a fresh id, numbered by the hook, on the given board and column, assigned to the caller. |
| TaskController.GetTasksByBoardId | src/controllers/task.controller.ts:57-81 | UnAuthenticated exactly for a non-member. Otherwise every task of the board, each once and no other, by ascending position. |
| TaskController.ReorderedStep | src/controllers/task.controller.ts:102-117 | Applying one more element of `tasks_order` updates only the task it names, to position i+1 and the given column. |
| TaskController.ReorderKeepsRows | src/controllers/task.controller.ts:110-117 | A reorder keeps the set of tasks, and changes no field but position and column. |
| TaskController.ReorderPlacesNamedTask | src/controllers/task.controller.ts:110-117 | The task named at index i, when no later element names it, ends at position i+1 in the column that element gives. |
| TaskController.ReorderLeavesUnnamed | src/controllers/task.controller.ts:110-117 | A task no element names is unchanged. |
| TaskController.ReorderIdempotent | src/controllers/task.controller.ts:102-117 | Submitting the same order twice gives the same tasks as submitting it once. |
| TaskController.ReorderKeepsConsistent | src/controllers/task.controller.ts:102-117 | A reorder keeps the store's invariant. |
| TaskController.UpdateTasksOrder | src/controllers/task.controller.ts:83-121 | NotFound for missing or empty `tasks_order` or caller; UnAuthenticated for a non-member or for an element of another board; no write in any of these. Otherwise the tasks are the loop's result, and nothing else changes. |
| TaskController.UpdateTaskDescription | src/controllers/task.controller.ts:123-152 | BadRequest for an empty description; NotFound for an unknown task; UnAuthenticated for a non-member; no write in any of these. Otherwise only that task's description changes. |
| TaskController.DeleteTaskById | src/controllers/task.controller.ts:154-176 | NotFound without a caller or for an unknown task; UnAuthenticated for a non-member; no write in any of these. Otherwise the task and exactly its assignments go, and nothing else changes. |
| TaskController.CheckHandoff | src/controllers/task.controller.ts:182-228 | The guards of a hand-over in order. An empty e-mail or missing caller is BadRequest; an unknown task is NotFound. "Already the assignee" holds exactly when the e-mail's user is the assignee, before any membership check. A hand-over names an existing non-assignee user with that e-mail, and both that user and the caller are members. UnAuthenticated means one of them is not. |
| TaskController.HandOverTasks | src/controllers/task.controller.ts:230-237 | The task's assignee becomes the recipient. No other task and no table but tasks and assignments changes. |
| TaskController.HandOverRows | src/controllers/task.controller.ts:239-260 | Self-assignment leaves the assignments alone. Otherwise exactly one row exists for (recipient, task), sent by the caller on the task's board. Rows of other pairs are kept. |
| TaskController.HandOverConsistent | src/controllers/task.controller.ts:230-260 | A hand-over keeps the store's invariant. |
| TaskController.ApplyHandOver | src/controllers/task.controller.ts:230-260 | The writes of a hand-over produce exactly `HandedOver` and keep the invariant. |
| TaskController.AssignToMember | src/controllers/task.controller.ts:178-276 | A refused guard answers its error with no write and no push. "Already the assignee" answers success with no write and no push. Otherwise the tables become `HandedOver`, and the recipient, unless it is the caller, gets one push at its socket when online. |
| Presence.SocketOf | src/controllers/task.controller.ts:261-268 | There is a socket exactly when the user is online. It is one registered for that user, and with unique ids the only one. |
| Presence.PushTo | src/controllers/task.controller.ts:261-273 | At most one push; exactly one when the user is online, carrying the event to that user's socket. |
| Presence.WithoutSocket | src/app.ts:77-81 | Exactly the entries with another socket remain. |
| Presence.WithoutAbsentSocket | src/app.ts:77-81 | Dropping a socket nobody uses changes nothing. |
| Presence.WithoutSocketAppend | src/app.ts:77-81 | Filtering works piece by piece, so the remaining entries keep their order. |
| Presence.WithoutSocketKeepsUnique | src/app.ts:77-81 | Filtering keeps user ids unique. |
| Presence.Realtime.constructor | src/app.ts:21-26 | The registry starts empty. |
| Presence.Realtime.AddNewUser | src/app.ts:68-75 | A user already online leaves the registry unchanged. Otherwise one entry (id, e-mail, socket, no display name) is appended. User ids stay unique. |
| Presence.Realtime.Disconnect | src/app.ts:77-81 | The registry becomes the filtered one, no entry carries the socket, and ids stay unique. |
| Presence.Realtime.Notify | src/controllers/task.controller.ts:261-273 | The outbox grows by exactly the push to the user's socket, if the user is online. |
| BoardController.InvitationRowsFacts | src/controllers/board.controller.ts:29-39 | The invitation rows have exactly the consecutive fresh ids, one per invitee in order. Each is a new pending invitation from the caller on the board. Invitees are not de-duplicated. |
| BoardController.InvitationRowsStep | src/controllers/board.controller.ts:39 | One more invitee adds one row under the next id. |
| BoardController.InvitePushes | src/controllers/board.controller.ts:41-61 | There are at most as many pushes as invitees. |
| BoardController.InvitePushesFacts | src/controllers/board.controller.ts:41-61 | Every push carries the event to the socket of some invitee. Every online invitee gets one. |
| BoardController.CreatedBoardShape | src/controllers/board.controller.ts:22-84 | The new board has a fresh id, is owned by the caller, and has the given name and key. Its description is null when none is given. The caller is its only member, and it has exactly three columns, "TO DO"/1, "IN PROGRESS"/2 and "DONE"/3. |
| BoardController.CreatedBoardInvitations | src/controllers/board.controller.ts:29-39 | The new board's invitations are exactly one new pending invitation per invitee, sent by the caller. |
| BoardController.CreatedBoardKeeps | src/controllers/board.controller.ts:15-91 | Creating a board keeps every existing row, and users, tasks and assignments are untouched. |
| BoardController.InsertInvitations | src/controllers/board.controller.ts:39 | The loop inserts exactly the invitation rows, under consecutive fresh ids. |
| BoardController.NotifyInvitees | src/controllers/board.controller.ts:41-61 | The outbox grows by exactly the invitees' pushes, in order. |
| BoardController.AddOwnerAndColumns | src/controllers/board.controller.ts:63-84 | One membership for the owner, then the three default columns, under the next ids. |
| BoardController.InviteAndFurnish | src/controllers/board.controller.ts:29-84 | The invitations, pushes, membership and columns, with the ids `CreatedBoard` gives them. |
| BoardController.CreateBoard | src/controllers/board.controller.ts:15-91 | BadRequest with no write when the name, key or caller is missing. With no `invitedMembers`, the board row stays and the TypeError is raised. Otherwise the tables become `CreatedBoard` and the outbox grows by the invitation pushes. |
| BoardController.OrDefault | src/controllers/board.controller.ts:95-96 | A present non-zero value is kept, and anything else gives the default. The result is positive whenever the default is. |
| BoardController.TotalPages | src/controllers/board.controller.ts:128 | The least page count whose pages hold every row. It is zero exactly when there are no rows. |
| BoardController.CeilingDivision | src/controllers/board.controller.ts:128 | `(count + limit - 1) / limit` is that ceiling. |
| BoardController.UserInfoOf | src/controllers/board.controller.ts:104-108 | The included user is present exactly when the row names an existing user, with its e-mail and display name. |
| BoardController.Matching | src/controllers/board.controller.ts:101-116 | Exactly the caller's memberships of existing boards whose name contains the query. |
| BoardController.RowsOf | src/controllers/board.controller.ts:101-127 | One answer row per membership, in order. |
| BoardController.Page | src/controllers/board.controller.ts:125-126 | The slice starting at the offset, at most `limit` long, and as long as the rows allow. |
| BoardController.PageOf | src/controllers/board.controller.ts:98-126 | The page at `offset` holds exactly the memberships ranked from `offset` up to `offset + limit`, as many as exist. Its i-th entry has rank `offset + i`. Here a membership's rank is the number of matching memberships with smaller ids. |
| BoardController.GetAllBoards | src/controllers/board.controller.ts:93-136 | The page number is the parsed one or 1, and the page count is `TotalPages` of the number of matches. The rows are exactly the ones for the memberships of `PageOf` at offset `(numOfPage - 1) * limit`, in that order. So a membership is listed exactly when it matches and its rank falls in the page's window. |
| BoardController.MulLessCancel | src/controllers/board.controller.ts:98 | Multiplication by the positive limit preserves order. |
| BoardController.PageOfIndex | src/controllers/board.controller.ts:98-128 | The row at index i is on page i / limit + 1, which is a page the count allows. No other page holds it. |
| BoardController.EachMatchOnOnePage | src/controllers/board.controller.ts:93-136 | Every matching membership is on exactly one page within `totalPages`. |
| BoardController.MemberViewOf | src/controllers/board.controller.ts:174-180 | The projection keeps the user id. E-mail and display name are present exactly when the user exists, and are that user's. |
| BoardController.ColumnsOn | src/controllers/board.controller.ts:156-161 | Exactly the columns of the board. |
| BoardController.BySequence | src/controllers/board.controller.ts:159 | Sorting by the key orders the columns by sequence. |
| BoardController.ColumnsOf | src/controllers/board.controller.ts:156-161 | Every column of the board, each once, by ascending sequence. |
| BoardController.MembershipsOf | src/controllers/board.controller.ts:164-173 | Exactly the memberships of the board, by ascending id, each once: the length is the number of the board's memberships. |
| BoardController.MemberViews | src/controllers/board.controller.ts:174-180 | One projected entry per membership, in order. |
| BoardController.BoardViewOf | src/controllers/board.controller.ts:149-163 | Present exactly when the board exists. Then it carries the row, its owner and its columns in sequence order. |
| BoardController.MembersView | src/controllers/board.controller.ts:164-180 | One entry per membership of the board: the length is the number of memberships, and entry i is the projection of the i-th membership by id. So every entry belongs to a member, and every member appears. |
| BoardController.GetBoardById | src/controllers/board.controller.ts:138-185 | UnAuthenticated exactly for a non-member. Otherwise the board view and the member views. |
| BoardController.Edited | src/controllers/board.controller.ts:197-204 | Each field given in the body replaces the stored one. A description given as null clears the stored one. An absent field keeps its value, and the owner never changes. |
| BoardController.EditFacts | src/controllers/board.controller.ts:197-204 | An empty body changes nothing. The same edit twice equals it once. |
| BoardController.UpdateBoardById | src/controllers/board.controller.ts:187-206 | UnAuthenticated with no write unless the caller owns the board. Otherwise only that board row is edited. |
| BoardController.BoardDeletedFacts | src/controllers/board.controller.ts:218-226 | The board goes, with exactly its tasks and assignments. Its memberships and columns go too, standing for the nulled foreign keys. Rows of other boards, users and invitations are kept, and the invariant holds. Afterwards nobody is a member of the deleted board, and membership of every other board is unchanged. |
| BoardController.DeleteBoardById | src/controllers/board.controller.ts:208-228 | UnAuthenticated with no write unless the caller owns the board. Otherwise the tables become `BoardDeleted`. |
| AuthController.DisplayNameIsLocalPart | src/controllers/auth.controller.ts:84 | The display name is the longest prefix of the e-mail without "@". For `local@domain` with no "@" in `local`, it is `local`. |
| AuthController.RegisterDecision | src/controllers/auth.controller.ts:37-53 | A missing e-mail or password is BadRequest. With unique e-mails: Conflict exactly for a verified user, resend exactly for an unverified one, and creation exactly for a new address. |
| AuthController.Register | src/controllers/auth.controller.ts:34-104 | A refusal or a resend changes nothing, so a stored password is never replaced. Creation adds exactly one unverified user, named after the local part, with the hashed password, under a fresh id. |
| AuthController.RegisteredIsFound | src/controllers/auth.controller.ts:81-85 | After creation, the address finds the new unverified user, and e-mails stay unique. |
| AuthController.InvitationsTo | src/controllers/auth.controller.ts:138-142 | Exactly the invitations addressed to the user, by ascending id. |
| AuthController.Login | src/controllers/auth.controller.ts:106-153 | The same "incorrect" error exactly for an unknown address or a wrong password. "Verify first" exactly for a correct password of an unverified user. Success only for a verified user with the right password, with its token and identity. The notifications are the user's invitations, each once, by ascending id. |
| AuthController.RegisteredMustVerify | src/controllers/auth.controller.ts:110-125 | A just-registered account cannot log in, even with its password. |
| AuthController.VerifiedUsers | src/controllers/auth.controller.ts:172-177 | Every user with the address becomes verified, with nothing else changed. Other users are unchanged. |
| AuthController.VerifyOutcome | src/controllers/auth.controller.ts:155-190 | A missing token is BadRequest, an expired one Forbidden, a malformed one UnAuthenticated. For a decoded token: BadRequest exactly when the address's user is already verified, and success otherwise. |
| AuthController.VerifiedUsersConsistent | src/controllers/auth.controller.ts:172-177 | Verifying keeps the store's invariant. |
| AuthController.VerifyEmailWithToken | src/controllers/auth.controller.ts:155-190 | The answer is `VerifyOutcome`. An error writes nothing. Success marks exactly the users with the token's address as verified. |
| AuthController.VerifiedStaysVerified | src/controllers/auth.controller.ts:167-170 | After verification, the same token is refused as already verified, and registering the address again is a conflict. |
| AuthController.VerifyAccessToken | src/controllers/auth.controller.ts:192-203 | Every error is "Authentication Invalid". A header not starting with "Bearer" is refused. Success holds exactly when the second space-separated field exists and is accepted, and it is that field. |
| AuthController.BearerAccepted | src/controllers/auth.controller.ts:194-199 | `Bearer <token>`, with a space-free token that is accepted, yields that token. |
| NotificationController.InvitationsFor | src/controllers/notification.controller.ts:38-43 | Exactly the user's invitations, and with `seen: false` only the unseen ones. |
| NotificationController.AssignmentsFor | src/controllers/notification.controller.ts:73-78 | Exactly the user's assignments, and with `seen: false` only the unseen ones. |
| NotificationController.InvitationsNewestFirst | src/controllers/notification.controller.ts:15-20 | The given invitations, each once, newest first. |
| NotificationController.AssignmentsNewestFirst | src/controllers/notification.controller.ts:45-50 | The given assignments, each once, newest first. |
| NotificationController.Inbox | src/controllers/notification.controller.ts:15-86 | Exactly the user's invitations and assignments, each listed once, so each list is as long as the set of such rows, and each newest first. The unread counts count the unseen ones and are at most the list lengths. The total is their sum. |
| NotificationController.GetAllNotifications | src/controllers/notification.controller.ts:10-87 | BadRequest exactly when there is no caller. Otherwise the caller's inbox, with nothing written. |
| UserController.OtherUsers | src/controllers/user.controller.ts:9-14 | Exactly the users other than the caller, by ascending id. |
| UserController.Views | src/controllers/user.controller.ts:15 | Each view carries only the id, display name and e-mail of its user. |
| UserController.GetAllUsers | src/controllers/user.controller.ts:9-17 | The caller is never listed, and every other user is listed once, with only id, display name and e-mail, by ascending id. The length is the number of other users. |
| ErrorHandler.StatusOf | src/middlewares/error-handler.ts:12 | The error's own status, or 500 when it has none. |
| ErrorHandler.NormalisedMessage | src/middlewares/error-handler.ts:13-15 | Never empty. A message without ":" is kept, unless it is empty. A message with ":" becomes its third piece, or the default text, and never contains ":". |
| ErrorHandler.PiecesOfMessage | src/middlewares/error-handler.ts:14-15 | For a message of colon-free pieces: the third piece when it exists and is not empty, else the default. In particular, one colon gives the default. |
| ErrorHandler.NormaliseIdempotent | src/middlewares/error-handler.ts:14-15 | Normalising twice equals normalising once. |
| ErrorHandler.Handle | src/middlewares/error-handler.ts:4-18 | The reply has a status between 400 and 500 and a non-empty `msg` without ":". A non-empty colon-free message is passed through. |

## Left out

- E-mail sending (nodemailer), the verification e-mail's form, and socket.io transport are not
  modelled. A push is only appended to the outbox.
- Password hashing and token signing or checking are parameters, not implementations of bcrypt
  and jsonwebtoken.
- The 15-minute timer that deletes unverified accounts is not modelled. It is a scheduled side
  effect outside any request.
- TaskController.UpdateTasksOrder is all-or-nothing: one element of another board refuses the
  whole batch with no write. The source runs un-awaited callbacks, so it may update the other
  elements and still answer 200. That partial application is an interleaving artefact, and the
  model does not reproduce it.
- BoardController.CreateBoard does not reproduce the un-awaited push callbacks. The pushes are
  sent in invitee order, before the membership is created.
- The creation hook's read of the maximum and the insert that follows are one atomic step, so the
  race between two concurrent creations is not modelled.
- TaskController.AssignToMember omits the second "already the assignee" test at
  src/controllers/task.controller.ts:226-228. It can never succeed after the test at 202-204, so
  the model has no branch for it.
- BoardController.DeleteBoardById: the associations of src/models/Board.ts:65-66,72 declare no
  `onDelete`, so deleting the board sets the board id of its memberships, columns and invitation
  to null. The model drops the memberships and columns instead of keeping them with a null board
  id. A row with a null board id matches none of the handlers' lookups, so both are observably the
  same, and a former member is refused on the deleted board. Invitations keep their row and their
  board id, because the inbox still lists them; the board they join to is simply gone.
- BoardController.UpdateBoardById takes the name and key as present or absent only. A null name or
  key fails the `allowNull: false` validation of src/models/Board.ts:38-45, and that error path is
  not modelled. A null description is modelled, and it clears the stored one.
- BoardController.Matching treats SQL `LIKE '%query%'` as plain substring containment. `%` and
  `_` in the query are not wildcards, and case rules follow exact characters.
- BoardController.OrDefault takes the result of `parseInt` as an optional natural. Negative values
  and fractional inputs are not modelled, and the limit is positive.
- BoardController.GetAllBoards projects each board to `board_id`, `board_name`, `description` and
  `key`, and each included user to e-mail and display name, as the `attributes` lists do. Its rows cover the memberships of boards that still exist, since the board include
  is an inner join.
- BoardController.CreateBoard's invitees are user ids. The shape of the `invitedMembers` objects,
  and an element without an `id`, are not modelled.
- AuthController.Login does not model an absent password in the body.
- AuthController.Login does not model an absent e-mail in the body. The `findOne` query then fails on
  the undefined WHERE value, and since that error has no `statusCode` the answer is 500.
- AuthController.VerifyEmailWithToken does not model a token that decodes without an `email`.
- Database failures (a violated constraint, a lost connection) are not modelled. Their rethrow
  paths (`throw err`) are therefore absent.
- The files src/errors/bad-request.ts and src/errors/unauthenticated.ts are not part of this model.
  The statuses 400 and 401 follow the names of their `StatusCodes` constants.
- AuthController.VerifyAccessToken answers nothing on success in the source, so the request is
  left without a reply. The model returns the token, and does not model the missing reply.
- The invitation, column and assignment controllers (accept, decline, mark seen,
  `readAssignments`) are not part of this model.
