/** BoardRepository: the SQL of Repositories/BoardRepository.cs as operations
    on the in-memory tables. */
module BoardRepository {
  import opened Roles
  import opened Models
  import opened Store

  /** The membership rows of one board (the WHERE bm.BoardId = @BoardId query). */
  function MembersOf(members: seq<BoardMember>, boardId: Uuid): (r: seq<BoardMember>)
    ensures forall m :: m in r <==> m in members && m.boardId == boardId
  {
    Where(members, (m: BoardMember) => m.boardId == boardId)
  }

  /** The membership rows DELETE FROM BoardMembers WHERE BoardId = @BoardId keeps. */
  function MembersNotOf(members: seq<BoardMember>, boardId: Uuid): (r: seq<BoardMember>)
    ensures forall m :: m in r <==> m in members && m.boardId != boardId
  {
    Where(members, (m: BoardMember) => m.boardId != boardId)
  }

  /** IsBoardOwnerAsync: COUNT(1) of rows (boardId, userId, 'Owner') is positive. */
  function IsBoardOwner(members: seq<BoardMember>, boardId: Uuid, userId: Uuid): (r: bool)
    ensures r <==> HasRole(members, boardId, userId, Owner)
  {
    |Where(members, (m: BoardMember) => m.boardId == boardId && m.userId == userId && m.role == Owner)| > 0
  }

  /** The Boards row CreateBoardAsync inserts; the timestamp columns take their
      default, the current time. */
  function InsertedBoard(board: Board, boardId: Uuid, now: Timestamp): Board {
    Board(boardId, board.title, board.description, board.createdBy, now, now)
  }

  /** The BoardMembers row CreateBoardAsync inserts for the creator. */
  function OwnerMembership(boardId: Uuid, userId: Uuid, now: Timestamp): BoardMember {
    BoardMember(boardId, userId, Owner, now)
  }

  /** A task row belongs to `boardId` through its list (the JOIN on ListId). */
  predicate TaskOnBoard(lists: map<Uuid, List>, t: TaskItem, boardId: Uuid) {
    t.listId in lists && lists[t.listId].boardId == boardId
  }

  /** CreateBoardAsync: inserts the board and its creator's Owner membership in
      one transaction. `newId` is the key the database generates; a key
      already in use violates the primary key. */
  method CreateBoard(db: Database, board: Board, newId: Uuid, now: Timestamp, storage: Storage)
    returns (r: Result<Uuid>)
    requires db.Valid()
    modifies db
    ensures db.Valid()
    ensures r.Success? <==> newId !in old(db.boards) && !storage.FailsWithin(3)
    ensures r.Failure? ==> db.State() == old(db.State())
    ensures r.Success? ==>
      && r.value == newId
      && db.boards == old(db.boards)[newId := InsertedBoard(board, newId, now)]
      && db.members == old(db.members) + [OwnerMembership(newId, board.createdBy, now)]
      && db.lists == old(db.lists)
      && db.tasks == old(db.tasks)
    // exactly one membership exists for the new board: the creator as Owner
    ensures r.Success? ==> MembersOf(db.members, newId) == [OwnerMembership(newId, board.createdBy, now)]
    ensures r.Success? ==> IsBoardOwner(db.members, newId, board.createdBy)
  {
    var snapshot := db.State();
    // INSERT INTO Boards ... OUTPUT INSERTED.BoardId
    if storage.Fails(1) || newId in db.boards {
      db.Rollback(snapshot);
      return Failure(if storage.Fails(1) then StorageFailure else DuplicateKey);
    }
    db.boards := db.boards[newId := InsertedBoard(board, newId, now)];
    // INSERT INTO BoardMembers (BoardId, UserId, Role) VALUES (..., 'Owner')
    if storage.Fails(2) {
      db.Rollback(snapshot);
      return Failure(StorageFailure);
    }
    var owner := OwnerMembership(newId, board.createdBy, now);
    db.members := db.members + [owner];
    // COMMIT
    if storage.Fails(3) {
      db.Rollback(snapshot);
      return Failure(StorageFailure);
    }
    r := Success(newId);
    SoleMembershipOfNewBoard(snapshot, newId, board.createdBy, now);
  }

  /** Appending the owner row for a board no membership refers to yet leaves
      that row as the board's only membership, and makes its user an owner. */
  lemma SoleMembershipOfNewBoard(d: Db, newId: Uuid, userId: Uuid, now: Timestamp)
    requires d.Valid() && newId !in d.boards
    ensures MembersOf(d.members + [OwnerMembership(newId, userId, now)], newId) == [OwnerMembership(newId, userId, now)]
    ensures IsBoardOwner(d.members + [OwnerMembership(newId, userId, now)], newId, userId)
  {
    var owner := OwnerMembership(newId, userId, now);
    var ms := d.members + [owner];
    WhereAppend(d.members, [owner], (m: BoardMember) => m.boardId == newId);
    assert MembersOf(d.members, newId) == [];
    assert ms[|ms| - 1] == owner;
  }

  /** GetBoardByIdAsync: the board row with its membership rows, or none. */
  function GetBoardById(d: Db, boardId: Uuid): (r: Option<LoadedBoard>)
    ensures r.None? <==> boardId !in d.boards
    ensures r.Some? ==> r.value.board == d.boards[boardId]
    ensures r.Some? ==> forall m :: m in r.value.members <==> m in d.members && m.boardId == boardId
  {
    if boardId in d.boards then Some(LoadedBoard(d.boards[boardId], MembersOf(d.members, boardId)))
    else None
  }

  /** The rows of SELECT b.* FROM Boards b JOIN BoardMembers bm ON b.BoardId =
      bm.BoardId WHERE bm.UserId = @UserId, one per matching membership row. */
  function UserBoardRows(boards: map<Uuid, Board>, members: seq<BoardMember>, userId: Uuid): (r: seq<Board>)
    ensures forall x :: x in r ==>
      exists i :: 0 <= i < |members| && members[i].userId == userId && members[i].boardId in boards && boards[members[i].boardId] == x
    ensures forall i :: 0 <= i < |members| && members[i].userId == userId && members[i].boardId in boards ==>
      boards[members[i].boardId] in r
  {
    if members == [] then []
    else
      var rest := UserBoardRows(boards, members[1..], userId);
      assert forall i :: 0 < i < |members| ==> members[i] == members[1..][i - 1];
      var m := members[0];
      if m.userId == userId && m.boardId in boards then [boards[m.boardId]] + rest else rest
  }

  /** GetUserBoardsAsync: the boards the user has a membership on, each with
      its Members filled in by the loop over the query result. */
  method GetUserBoards(db: Database, userId: Uuid) returns (r: seq<LoadedBoard>)
    requires db.Valid()
    // every board returned has a membership row for the user, and carries its own members
    ensures forall i :: 0 <= i < |r| ==>
      && r[i].board.boardId in db.boards
      && db.boards[r[i].board.boardId] == r[i].board
      && HasRow(db.members, r[i].board.boardId, userId)
      && r[i].members == MembersOf(db.members, r[i].board.boardId)
    // every board the user has a membership on is returned
    ensures forall b :: b in db.boards && HasRow(db.members, b, userId) ==>
      exists i :: 0 <= i < |r| && r[i].board.boardId == b
  {
    var rows := UserBoardRows(db.boards, db.members, userId);
    r := [];
    for i := 0 to |rows|
      invariant |r| == i
      invariant forall j :: 0 <= j < i ==> r[j] == LoadedBoard(rows[j], MembersOf(db.members, rows[j].boardId))
    {
      r := r + [LoadedBoard(rows[i], MembersOf(db.members, rows[i].boardId))];
    }
    forall i | 0 <= i < |r|
      ensures r[i].board.boardId in db.boards && db.boards[r[i].board.boardId] == r[i].board
      ensures HasRow(db.members, r[i].board.boardId, userId)
    {
      assert rows[i] in rows;
    }
    forall b | b in db.boards && HasRow(db.members, b, userId)
      ensures exists i :: 0 <= i < |r| && r[i].board.boardId == b
    {
      var k :| 0 <= k < |db.members| && db.members[k].boardId == b && db.members[k].userId == userId;
      assert db.boards[b] in rows;
      var i :| 0 <= i < |rows| && rows[i] == db.boards[b];
      assert r[i].board.boardId == b;
    }
  }

  /** UpdateBoardAsync: sets Title, Description and UpdatedAt of the row whose
      BoardId is the board's; no row matches an unknown id. */
  method UpdateBoard(db: Database, board: Board, now: Timestamp)
    requires db.Valid()
    modifies db
    ensures db.Valid()
    ensures db.boards ==
      if board.boardId in old(db.boards)
      then old(db.boards)[board.boardId := old(db.boards)[board.boardId].(title := board.title, description := board.description, updatedAt := now)]
      else old(db.boards)
    ensures db.members == old(db.members) && db.lists == old(db.lists) && db.tasks == old(db.tasks)
    // the key set, and each board's id, creator and creation time, stay as they were
    ensures db.boards.Keys == old(db.boards).Keys
    ensures forall k :: k in db.boards ==>
      && db.boards[k].boardId == old(db.boards)[k].boardId
      && db.boards[k].createdBy == old(db.boards)[k].createdBy
      && db.boards[k].createdAt == old(db.boards)[k].createdAt
  {
    if board.boardId in db.boards {
      var row := db.boards[board.boardId];
      db.boards := db.boards[board.boardId := row.(title := board.title, description := board.description, updatedAt := now)];
    }
  }

  /** DeleteBoardAsync: in one transaction deletes the board's tasks (through
      its lists), its lists, its memberships and the board row. */
  method DeleteBoard(db: Database, boardId: Uuid, storage: Storage) returns (r: Result<()>)
    requires db.Valid()
    modifies db
    ensures db.Valid()
    ensures r.Success? <==> !storage.FailsWithin(5)
    ensures r.Failure? ==> db.State() == old(db.State())
    ensures r.Success? ==>
      && db.tasks == (map t | t in old(db.tasks) && !TaskOnBoard(old(db.lists), old(db.tasks)[t], boardId) :: old(db.tasks)[t])
      && db.lists == (map l | l in old(db.lists) && old(db.lists)[l].boardId != boardId :: old(db.lists)[l])
      && db.members == MembersNotOf(old(db.members), boardId)
      && db.boards == old(db.boards) - {boardId}
    // nothing that refers to the board is left
    ensures r.Success? ==>
      && boardId !in db.boards
      && (forall l :: l in db.lists ==> db.lists[l].boardId != boardId)
      && (forall m :: m in db.members ==> m.boardId != boardId)
      && (forall t :: t in db.tasks ==> !TaskOnBoard(old(db.lists), db.tasks[t], boardId))
    // everything that belongs elsewhere is left as it was
    ensures r.Success? ==>
      && (forall k :: k in old(db.boards) && k != boardId ==> k in db.boards && db.boards[k] == old(db.boards)[k])
      && (forall l :: l in old(db.lists) && old(db.lists)[l].boardId != boardId ==> l in db.lists && db.lists[l] == old(db.lists)[l])
      && (forall m :: m in old(db.members) && m.boardId != boardId ==> m in db.members)
      && (forall t :: t in old(db.tasks) && !TaskOnBoard(old(db.lists), old(db.tasks)[t], boardId) ==>
            t in db.tasks && db.tasks[t] == old(db.tasks)[t])
  {
    var snapshot := db.State();
    // DELETE t FROM Tasks t JOIN Lists l ON t.ListId = l.ListId WHERE l.BoardId = @BoardId
    if storage.Fails(1) { db.Rollback(snapshot); return Failure(StorageFailure); }
    db.tasks := map t | t in db.tasks && !TaskOnBoard(db.lists, db.tasks[t], boardId) :: db.tasks[t];
    // DELETE FROM Lists WHERE BoardId = @BoardId
    if storage.Fails(2) { db.Rollback(snapshot); return Failure(StorageFailure); }
    db.lists := map l | l in db.lists && db.lists[l].boardId != boardId :: db.lists[l];
    // DELETE FROM BoardMembers WHERE BoardId = @BoardId
    if storage.Fails(3) { db.Rollback(snapshot); return Failure(StorageFailure); }
    db.members := MembersNotOf(db.members, boardId);
    // DELETE FROM Boards WHERE BoardId = @BoardId
    if storage.Fails(4) { db.Rollback(snapshot); return Failure(StorageFailure); }
    db.boards := db.boards - {boardId};
    // COMMIT
    if storage.Fails(5) { db.Rollback(snapshot); return Failure(StorageFailure); }
    r := Success(());
  }

  /** A board that does not exist has no owner: its memberships would refer to it. */
  lemma MissingBoardHasNoOwner(d: Db, boardId: Uuid, userId: Uuid)
    requires d.Valid() && boardId !in d.boards
    ensures !IsBoardOwner(d.members, boardId, userId)
  {
  }
}
