# Task board store and its access guards

A model of the data layer and authorisation logic of TaskManagementSystem, an
ASP.NET Core Web API for Kanban-style boards. Users own boards, invite members
with roles, and keep ordered lists of tasks on each board.

The model has four parts:

- **The store.** The relational tables Boards, BoardMembers, Lists and Tasks
  are the class `Store.Database`, with one field per table. Boards, Lists and
  Tasks are maps keyed by their primary key. BoardMembers is a sequence of
  rows, because the SQL queries treat it as a bag: `COUNT(1) > 0` means that
  some row matches.
- **The repositories.** The SQL of `BoardRepository`, `ListRepository` and
  `BoardMemberRepository` is modelled as methods that change the tables, and
  as functions for the queries.
  - The transactions in `CreateBoardAsync` and `DeleteBoardAsync` are
    modelled statement by statement. A storage-fault parameter says which
    statement fails, if any. A failure rolls the tables back to their state
    before the transaction.
- **The controllers.** The guards of `BoardController`, `ListController` and
  `BoardMemberController` are modelled.
  - Each handler has a result that names the HTTP outcome: Ok, NoContent,
    BadRequest, NotFound, Forbid or a 500 error.
  - Handlers that change data are methods over the store. Their contracts say
    when the request is forbidden, and that a forbidden request changes
    nothing.
  - `caller` is the user id the handler reads from the token's
    NameIdentifier claim.
- **The request validation.** The `[Required]` and `[RegularExpression]`
  attributes on `AddBoardMemberDto.Role` are modelled. Together they admit
  exactly `Admin`, `Member` and `Viewer`.

Roles are free strings in the database. The model reads them as the datatype
`Owner | Admin | Member | Viewer | Other(name)`. `Roles.Parse` and `Roles.Name`
are mutually inverse on canonical values, so any string can be stored and read
back.

The following are parameters of the operations:

- the new primary key that `NEWID()` or the identity column generates (`newId`);
- the time `GETDATE()` returns (`now`);
- whether a statement inside a transaction fails (`storage`).

Inserting a key that is already in use fails with `DuplicateKey`.
`MAX(Position) + 1` on an INT column fails with `ArithmeticOverflow` when the
largest position is 2147483647.

Some consequences of the code as written:

- The code has no guard that keeps a board's last owner. An owner may remove
  themselves or change their own role
  (`BoardMemberController.SoleOwnerCanLeaveBoardOwnerless`).
- `DeleteListAsync` deletes only the list row. The positions of the remaining
  lists keep their gap, and the list's task rows are not touched by its SQL.
- `DeleteBoardAsync` deletes tasks, lists, memberships and the board. Its SQL
  does not touch TaskAssignees.
- `IsBoardMemberWithRoleAsync` is called but never defined. The model reads
  it as exact role equality, with no role ranking above another. As a
  result, an Admin who is not also a Member may retitle a list but not move
  it (`ListController.AdminCannotMoveList`).

## Model

| member | source | states |
|---|---|---|
| Roles.Parse | Models/BoardMember.cs:7 | every string reads as a canonical role whose name is that same string, so a stored role string is never lost |
| Roles.ParseName | Models/BoardMember.cs:7 | reading back the name of a canonical role gives the same role |
| Roles.NameInjective | Models/BoardMember.cs:7 | two canonical roles with the same stored name are the same role |
| Store.Where | Repositories/BoardMemberRepository.cs:75-80 | a WHERE filter keeps exactly the rows satisfying the predicate, and is non-empty (COUNT(1) > 0) iff some row satisfies it |
| Store.WhereAppend | Repositories/BoardRepository.cs:35-43 | filtering a table with rows appended is filtering the old rows and the new rows separately |
| Store.Database.constructor | Data/DbContext.cs.cs:1-19 | the database the connections reach starts from a consistent set of tables and holds exactly those tables |
| Store.Database.Rollback | Repositories/BoardRepository.cs:48-52 | a rollback restores every table to the snapshot taken when the transaction began |
| BoardRepository.MembersOf | Repositories/BoardRepository.cs:73-77 | the membership rows of a board are exactly the rows with that BoardId |
| BoardRepository.MembersNotOf | Repositories/BoardRepository.cs:173-177 | the rows that DELETE FROM BoardMembers WHERE BoardId = @BoardId keeps are exactly the rows of other boards |
| BoardRepository.IsBoardOwner | Repositories/BoardRepository.cs:195-212 | true iff some membership row gives the user the role 'Owner' on the board |
| BoardRepository.CreateBoard | Repositories/BoardRepository.cs:15-53 | succeeds iff the generated id is fresh and no statement fails; then the board row is inserted with the caller-supplied title, description and creator, the creator is its only member with role 'Owner', and nothing else changes; on failure every table is as before |
| BoardRepository.SoleMembershipOfNewBoard | Repositories/BoardRepository.cs:34-43 | after the owner row is appended for a fresh board, that row is the board's only membership and makes the creator its owner |
| BoardRepository.GetBoardById | Repositories/BoardRepository.cs:55-94 | none iff no board has the id; otherwise the board row together with exactly its membership rows |
| BoardRepository.UserBoardRows | Repositories/BoardRepository.cs:100-107 | the join yields only boards the user has a membership row on, and every such board |
| BoardRepository.GetUserBoards | Repositories/BoardRepository.cs:96-133 | every board returned exists, has a membership row for the user and carries exactly its own members; every board the user belongs to is returned |
| BoardRepository.UpdateBoard | Repositories/BoardRepository.cs:135-147 | the matching board gets the new title, description and update time; its id, creator and creation time and all other rows and tables are unchanged; an unknown id changes nothing |
| BoardRepository.DeleteBoard | Repositories/BoardRepository.cs:149-193 | on success the board, its memberships, its lists and the tasks on those lists are gone and every other row is unchanged; if any of the five statements fails, every table is as before |
| BoardRepository.MissingBoardHasNoOwner | Repositories/BoardRepository.cs:195-212 | in a consistent store nobody owns a board that does not exist |
| ListRepository.Max | Repositories/ListRepository.cs:22 | MAX(Position) over a non-empty set of positions is one of them and at least every other |
| ListRepository.NextPosition | Repositories/ListRepository.cs:21-24 | ISNULL(MAX(Position), 0) + 1 is 1 on a board with no lists, otherwise one more than an existing position, and above every position on the board |
| ListRepository.NextPositionOnlyReadsItsBoard | Repositories/ListRepository.cs:22-24 | the next position depends only on the lists of the same board |
| ListRepository.CreateList | Repositories/ListRepository.cs:17-37 | fails with an overflow iff the board's largest position is the INT maximum, and with a duplicate key iff the generated id is taken; it succeeds iff neither holds, and then inserts a list after every existing list of its board (at 1 on an empty board) and moves no existing list |
| ListRepository.GetList | Repositories/ListRepository.cs:39-44 | none iff no list has the id; otherwise the one row whose ListId is the id |
| ListRepository.UpdateListTitle | Repositories/ListRepository.cs:66-75 | the matching list gets the new title and update time; no list changes board or position and the other tables are unchanged |
| ListRepository.DeleteList | Repositories/ListRepository.cs:77-82 | exactly the list with that id is removed; other lists keep their positions, and tasks, boards and memberships are unchanged |
| BoardMemberRepository.SetRole | Repositories/BoardMemberRepository.cs:50-59 | the UPDATE sets the role of exactly the rows of the (board, user) pair and leaves every other row as it was |
| BoardMemberRepository.WithoutMember | Repositories/BoardMemberRepository.cs:61-69 | the DELETE keeps exactly the rows that are not of the (board, user) pair |
| BoardMemberRepository.IsBoardMember | Repositories/BoardMemberRepository.cs:72-81 | true iff some row pairs the user with the board |
| BoardMemberRepository.IsBoardAdmin | Repositories/BoardMemberRepository.cs:83-92 | true iff some row gives the user the role 'Admin' on the board, which implies membership |
| BoardMemberRepository.UpdateBoardMemberRole | Repositories/BoardMemberRepository.cs:50-59 | the membership table becomes the role update of the pair to the given string, stored as is; the other tables are unchanged |
| BoardMemberRepository.RemoveBoardMember | Repositories/BoardMemberRepository.cs:61-69 | the pair's rows are deleted, so the user is no longer a member of the board; the other tables are unchanged |
| BoardMemberRepository.SetRoleKeepsMemberships | Repositories/BoardMemberRepository.cs:53-56 | a role update never adds or removes a membership of any pair |
| BoardMemberRepository.SetRoleOfNonMember | Repositories/BoardMemberRepository.cs:53-56 | updating the role of a pair with no row changes nothing |
| BoardMemberRepository.SetRoleIdempotent | Repositories/BoardMemberRepository.cs:53-56 | applying the same role update twice is applying it once |
| BoardMemberRepository.PromotedMemberIsAdmin | Repositories/BoardMemberRepository.cs:50-59 | after an existing member's role is set to 'Admin', IsBoardAdminAsync holds for them |
| BoardMemberDtos.IsValidRole | DTOs/BoardMembers/AddBoardMemberDto.cs:10-12 | [Required] and the anchored pattern together admit exactly "Admin", "Member" and "Viewer" |
| BoardMemberDtos.DefaultRoleIsValid | DTOs/BoardMembers/AddBoardMemberDto.cs:12 | the default role "Member" passes validation |
| BoardMemberDtos.OwnerIsRejected | DTOs/BoardMembers/AddBoardMemberDto.cs:11 | "Owner" is rejected, so no request body can grant ownership |
| BoardMemberDtos.PatternIsAnchored | DTOs/BoardMembers/AddBoardMemberDto.cs:11 | a role name with anything before or after it is rejected |
| BoardMemberDtos.ValidRoleIsNotOwner | DTOs/BoardMembers/AddBoardMemberDto.cs:10-12 | a role that passes validation reads as Admin, Member or Viewer |
| BoardController.MapMembers | Controllers/BoardController.cs:176-182 | the member projection keeps the number and order of members, entry by entry |
| BoardController.MapToBoardResponse | Controllers/BoardController.cs:166-184 | the response copies the board's columns and, in order, each member's UserId, Role and JoinedAt |
| BoardController.ResponseKeepsMembers | Controllers/BoardController.cs:176-182 | each member entry of the response reads back as the membership row it came from |
| BoardController.CreateBoard | Controllers/BoardController.cs:24-48 | the board is created with the caller as creator and the given title and description, the caller's Owner row is appended and lists and tasks are unchanged; the response names the caller as sole 'Owner' member; a repository failure yields a 500 and changes nothing |
| BoardController.GetBoard | Controllers/BoardController.cs:50-75 | NotFound iff the board is missing, checked before membership; Forbid iff it exists and the caller has no membership row; otherwise the board's response |
| BoardController.GetUserBoards | Controllers/BoardController.cs:77-92 | the response lists only boards the caller belongs to, each mapped with its own members, and every such board |
| BoardController.UpdateBoard | Controllers/BoardController.cs:94-125 | NotFound iff the board is missing; Forbid iff the caller is not an owner; otherwise only title and description (and the update time) change, and nothing changes on NotFound or Forbid |
| BoardController.DeleteBoard | Controllers/BoardController.cs:127-147 | Forbid iff the caller is not an owner, which is always the case for a missing board; on NoContent exactly the board, its memberships, its lists and their tasks are gone and every other row stays; a forbidden or failed request deletes nothing |
| ListController.IsBoardMemberWithRole | Controllers/ListController.cs:38 | true iff some row gives the user exactly the named role on the board |
| ListController.HasListAccess | Controllers/ListController.cs:148-156 | false for an unknown list; otherwise true iff the caller owns the list's board or holds the required role on it; an owner always passes |
| ListController.AdminCannotMoveList | Controllers/ListController.cs:89-116 | an Admin who is neither owner nor Member passes the "Admin" guard but not the "Member" guard |
| ListController.CreateList | Controllers/ListController.cs:29-51 | Forbid iff the caller is neither owner nor Admin of the list's board, and then nothing is created; an allowed request succeeds iff the board's largest position is below the INT maximum and the generated id is fresh, and then inserts the list after every list of its board; otherwise a 500 that changes nothing |
| ListController.GetBoardLists | Controllers/ListController.cs:53-80 | NotFound iff the board is missing; Forbid iff it exists and the caller has no membership row; otherwise Ok |
| ListController.UpdateListPosition | Controllers/ListController.cs:82-102 | Ok iff the list exists and the caller is owner or Member of its board; the position update then names the route's list and the requested position |
| ListController.UpdateListTitle | Controllers/ListController.cs:104-124 | Ok iff the list exists and the caller is owner or Admin of its board, and then only that list's title changes; Forbid changes nothing |
| ListController.DeleteList | Controllers/ListController.cs:126-146 | NoContent iff the list exists and the caller is owner or Admin of its board, and then exactly that list is removed; Forbid changes nothing |
| BoardMemberController.GetBoardMembers | Controllers/BoardMemberController.cs:29-51 | Ok iff the caller is an owner or has a membership row on the board; otherwise Forbid |
| BoardMemberController.CanManageMembers | Controllers/BoardMemberController.cs:132-136 | true iff the caller is owner or Admin of the board, which implies membership |
| BoardMemberController.NoOneManagesMissingBoard | Controllers/BoardMemberController.cs:132-136 | in a consistent store nobody can manage the members of a board that does not exist |
| BoardMemberController.AddBoardMember | Controllers/BoardMemberController.cs:53-82 | BadRequest iff the role is not Admin, Member or Viewer; Forbid iff it is valid and the caller is neither owner nor Admin; otherwise the row to add takes its board from the route and its user and role from the body, and is never an Owner row |
| BoardMemberController.UpdateMemberRole | Controllers/BoardMemberController.cs:84-106 | Forbid iff the caller is not an owner, changing nothing; otherwise any member, the caller included, gets any role string |
| BoardMemberController.RemoveBoardMember | Controllers/BoardMemberController.cs:108-130 | Forbid iff the caller is not an owner, changing nothing; otherwise the member's rows are deleted, the caller's own included |
| BoardMemberController.SoleOwnerCanLeaveBoardOwnerless | Controllers/BoardMemberController.cs:116-121 | when a board's sole owner removes themselves, no user owns the board afterwards |

## Left out

- AddBoardMemberAsync, GetBoardMembersAsync, GetBoardListsAsync and UpdateListPositionAsync call the stored procedures sp_AddBoardMember, sp_GetBoardMembers, usp_GetBoardLists and usp_UpdateListPosition. Their bodies are not part of this model. The controller guards in front of them are modelled, and for AddBoardMember and UpdateListPosition so are the parameters passed. Their effect on the tables is not modelled.
- BoardController.SearchBoards: SearchBoardsAsync is declared but has no implementation.
- BoardRepository.GetBoardById and BoardRepository.GetUserBoards: the JOIN with Users that adds each member's Username and IsActive is left out of both member queries. A membership row whose user has no Users row would be dropped by that inner join, and the model keeps it.
- BoardRepository.GetUserBoards: the ORDER BY UpdatedAt DESC ordering is left out, because timestamps are opaque values.
- The Users table, UserRepository and UserController are left out: BCrypt password hashing and JWT issuance are foreign libraries.
- TaskRepository, TaskController and TasksController are left out. They pass straight through to stored procedures and have no guards. The Tasks table exists only so that the cascade in DeleteBoardAsync can be stated.
- TaskAssignees is not modelled, because no modelled operation reads or writes it.
- Concurrency between requests, connection handling, logging and exception messages are left out. A thrown repository exception becomes the 500 outcome.
- BoardRepository.CreateBoard and BoardRepository.DeleteBoard assume an open connection. `CreateConnection` returns a new SqlConnection that is never opened, and `BeginTransaction` on a closed connection throws before any statement runs; the model does not capture that failure.
- The table schema is not part of this model. The model assumes a link from BoardMembers to Boards but none from Tasks to Lists or from Lists to Boards. It reads DeleteList and DeleteBoard from their SQL text alone: a foreign key or cascade rule in the schema could make those DELETEs fail or delete more rows.
- DB defaults are taken as the `now` parameter: GETDATE() for CreatedAt, UpdatedAt and JoinedAt. The creation time of a row inserted by CreateBoardAsync or CreateListAsync is `now`.
- BoardRepository.IsBoardOwner, BoardMemberRepository.IsBoardAdmin and ListController.IsBoardMemberWithRole compare roles as exact strings. SQL Server's `=` ignores trailing blanks whatever the collation, so `Role = 'Owner'` also matches a row stored as 'Owner ', which UpdateMemberRole can create. Under a case-insensitive collation it would also match 'owner'. The model treats both as Other roles, so such members are not owners or Admins here, although they are in the program.
- BoardMemberDtos.SatisfiesRequired: white space is approximated by space, tab, newline and carriage return, not the full Unicode set.
- Guid and UserId parsing are left out: the claim lookup in each handler is taken to succeed, and ids are natural numbers.
