/** BoardController (Controllers/BoardController.cs): the request handlers for
    boards, with their guards, over the board repository. `caller` is the user
    id taken from the bearer token's NameIdentifier claim. */
module BoardController {
  import opened Roles
  import opened Models
  import opened Store
  import opened Http
  import opened BoardRepository

  datatype CreateBoardDto = CreateBoardDto(title: string, description: Option<string>)

  datatype UpdateBoardDto = UpdateBoardDto(title: string, description: Option<string>)

  datatype BoardMemberResponse = BoardMemberResponse(userId: Uuid, role: string, joinedAt: Timestamp)

  datatype BoardResponse = BoardResponse(
    boardId: Uuid,
    title: string,
    description: Option<string>,
    createdBy: Uuid,
    createdAt: Timestamp,
    updatedAt: Option<Timestamp>,
    members: seq<BoardMemberResponse>)

  function MemberResponse(m: BoardMember): BoardMemberResponse {
    BoardMemberResponse(m.userId, Name(m.role), m.joinedAt)
  }

  /** The Members.Select(...) projection, entry by entry. */
  function MapMembers(ms: seq<BoardMember>): (rs: seq<BoardMemberResponse>)
    ensures |rs| == |ms|
    ensures forall i :: 0 <= i < |ms| ==> rs[i] == MemberResponse(ms[i])
  {
    if ms == [] then [] else [MemberResponse(ms[0])] + MapMembers(ms[1..])
  }

  /** MapToBoardResponse: copies the board's columns and, in order, each
      member's user id, role and join time. */
  function MapToBoardResponse(lb: LoadedBoard): (r: BoardResponse)
    ensures r.boardId == lb.board.boardId && r.title == lb.board.title && r.description == lb.board.description
    ensures r.createdBy == lb.board.createdBy && r.createdAt == lb.board.createdAt && r.updatedAt == Some(lb.board.updatedAt)
    ensures |r.members| == |lb.members|
    ensures forall i :: 0 <= i < |lb.members| ==>
      && r.members[i].userId == lb.members[i].userId
      && r.members[i].role == Name(lb.members[i].role)
      && r.members[i].joinedAt == lb.members[i].joinedAt
  {
    BoardResponse(lb.board.boardId, lb.board.title, lb.board.description, lb.board.createdBy,
                  lb.board.createdAt, Some(lb.board.updatedAt), MapMembers(lb.members))
  }

  /** The membership row a response entry describes, on the response's board. */
  function MemberOfResponse(boardId: Uuid, e: BoardMemberResponse): BoardMember {
    BoardMember(boardId, e.userId, Parse(e.role), e.joinedAt)
  }

  /** The response loses nothing of a loaded board's members: each entry reads
      back as the row it came from. */
  lemma ResponseKeepsMembers(lb: LoadedBoard)
    requires forall m :: m in lb.members ==> m.boardId == lb.board.boardId && Canonical(m.role)
    ensures |MapToBoardResponse(lb).members| == |lb.members|
    ensures forall i :: 0 <= i < |lb.members| ==>
      MemberOfResponse(MapToBoardResponse(lb).boardId, MapToBoardResponse(lb).members[i]) == lb.members[i]
  {
    var r := MapToBoardResponse(lb);
    forall i | 0 <= i < |lb.members|
      ensures MemberOfResponse(r.boardId, r.members[i]) == lb.members[i]
    {
      assert lb.members[i] in lb.members;
      ParseName(lb.members[i].role);
    }
  }

  /** CreateBoard: the caller becomes the board's creator, and the response
      describes the stored board. */
  method CreateBoard(db: Database, caller: Uuid, dto: CreateBoardDto, newId: Uuid, now: Timestamp, storage: Storage)
    returns (r: ActionResult<BoardResponse>)
    requires db.Valid()
    modifies db
    ensures db.Valid()
    ensures r.Ok? || r.ServerError?
    ensures r.Ok? <==> newId !in old(db.boards) && !storage.FailsWithin(3)
    ensures r.ServerError? ==> db.State() == old(db.State())
    ensures r.Ok? ==> db.boards == old(db.boards)[newId := Board(newId, dto.title, dto.description, caller, now, now)]
    ensures r.Ok? ==>
      && db.members == old(db.members) + [OwnerMembership(newId, caller, now)]
      && db.lists == old(db.lists) && db.tasks == old(db.tasks)
    ensures r.Ok? ==> IsBoardOwner(db.members, newId, caller)
    ensures r.Ok? ==> r.value == BoardResponse(newId, dto.title, dto.description, caller, now, Some(now),
                                               [BoardMemberResponse(caller, "Owner", now)])
  {
    // new Board { Title, Description, CreatedBy = userId }; the other properties keep their defaults
    var board := Board(0, dto.title, dto.description, caller, 0, 0);
    var created := BoardRepository.CreateBoard(db, board, newId, now, storage);
    if created.Failure? {
      return ServerError;
    }
    var loaded := GetBoardById(db.State(), created.value);
    r := match loaded
      case Some(b) => Ok(MapToBoardResponse(b))
      case None => ServerError;
  }

  /** GetBoard: NotFound for a missing board, decided before membership;
      Forbid for a caller without a membership row; otherwise the board. */
  function GetBoard(d: Db, caller: Uuid, boardId: Uuid): (r: ActionResult<BoardResponse>)
    ensures r.NotFound? <==> boardId !in d.boards
    ensures r.Forbid? <==> boardId in d.boards && !HasRow(d.members, boardId, caller)
    ensures r.Ok? <==> boardId in d.boards && HasRow(d.members, boardId, caller)
    ensures r.Ok? ==> r.value == MapToBoardResponse(LoadedBoard(d.boards[boardId], MembersOf(d.members, boardId)))
  {
    match GetBoardById(d, boardId)
    case None => NotFound
    case Some(board) =>
      if exists m :: m in board.members && m.userId == caller then Ok(MapToBoardResponse(board))
      else
        assert !HasRow(d.members, boardId, caller) by {
          forall i | 0 <= i < |d.members| && d.members[i].boardId == boardId
            ensures d.members[i].userId != caller
          {
            assert d.members[i] in board.members;
          }
        }
        Forbid
  }

  /** GetUserBoards: every board the caller has a membership row on, each
      mapped to its response. */
  method GetUserBoards(db: Database, caller: Uuid) returns (r: ActionResult<seq<BoardResponse>>)
    requires db.Valid()
    ensures r.Ok?
    ensures forall i :: 0 <= i < |r.value| ==>
      && r.value[i].boardId in db.boards
      && HasRow(db.members, r.value[i].boardId, caller)
      && r.value[i] == MapToBoardResponse(LoadedBoard(db.boards[r.value[i].boardId], MembersOf(db.members, r.value[i].boardId)))
    ensures forall b :: b in db.boards && HasRow(db.members, b, caller) ==>
      exists i :: 0 <= i < |r.value| && r.value[i].boardId == b
  {
    var boards := BoardRepository.GetUserBoards(db, caller);
    var responses: seq<BoardResponse> := [];
    for i := 0 to |boards|
      invariant |responses| == i
      invariant forall j :: 0 <= j < i ==> responses[j] == MapToBoardResponse(boards[j])
    {
      responses := responses + [MapToBoardResponse(boards[i])];
    }
    forall b | b in db.boards && HasRow(db.members, b, caller)
      ensures exists i :: 0 <= i < |responses| && responses[i].boardId == b
    {
      var i :| 0 <= i < |boards| && boards[i].board.boardId == b;
      assert responses[i].boardId == b;
    }
    r := Ok(responses);
  }

  /** UpdateBoard: NotFound for a missing board, Forbid unless the caller is
      an owner; otherwise replaces only the title and description. */
  method UpdateBoard(db: Database, caller: Uuid, boardId: Uuid, dto: UpdateBoardDto, now: Timestamp)
    returns (r: ActionResult<BoardResponse>)
    requires db.Valid()
    modifies db
    ensures db.Valid()
    ensures r.NotFound? <==> boardId !in old(db.boards)
    ensures r.Forbid? <==> boardId in old(db.boards) && !HasRole(old(db.members), boardId, caller, Owner)
    ensures r.Ok? <==> boardId in old(db.boards) && HasRole(old(db.members), boardId, caller, Owner)
    ensures !r.Ok? ==> db.State() == old(db.State())
    ensures r.Ok? ==>
      && db.boards == old(db.boards)[boardId := old(db.boards)[boardId].(title := dto.title, description := dto.description, updatedAt := now)]
      && db.members == old(db.members) && db.lists == old(db.lists) && db.tasks == old(db.tasks)
    ensures r.Ok? ==> r.value == MapToBoardResponse(LoadedBoard(db.boards[boardId], MembersOf(db.members, boardId)))
  {
    var loaded := GetBoardById(db.State(), boardId);
    if loaded.None? {
      return NotFound;
    }
    if !IsBoardOwner(db.members, boardId, caller) {
      return Forbid;
    }
    var board := loaded.value.board;
    board := board.(title := dto.title, description := dto.description);
    BoardRepository.UpdateBoard(db, board, now);
    var updated := GetBoardById(db.State(), boardId);
    r := match updated
      case Some(b) => Ok(MapToBoardResponse(b))
      case None => ServerError;
  }

  /** DeleteBoard: Forbid unless the caller is an owner, which a missing board
      never has; otherwise the cascade delete. */
  method DeleteBoard(db: Database, caller: Uuid, boardId: Uuid, storage: Storage) returns (r: ActionResult<()>)
    requires db.Valid()
    modifies db
    ensures db.Valid()
    ensures r.Forbid? || r.NoContent? || r.ServerError?
    ensures r.Forbid? <==> !HasRole(old(db.members), boardId, caller, Owner)
    ensures boardId !in old(db.boards) ==> r.Forbid?
    ensures r.NoContent? <==> HasRole(old(db.members), boardId, caller, Owner) && !storage.FailsWithin(5)
    ensures !r.NoContent? ==> db.State() == old(db.State())
    ensures r.NoContent? ==>
      && db.boards == old(db.boards) - {boardId}
      && db.members == MembersNotOf(old(db.members), boardId)
      && db.lists == (map l | l in old(db.lists) && old(db.lists)[l].boardId != boardId :: old(db.lists)[l])
      && db.tasks == (map t | t in old(db.tasks) && !TaskOnBoard(old(db.lists), old(db.tasks)[t], boardId) :: old(db.tasks)[t])
    // other boards' lists and tasks are left as they were
    ensures r.NoContent? ==>
      && (forall l :: l in old(db.lists) && old(db.lists)[l].boardId != boardId ==> l in db.lists && db.lists[l] == old(db.lists)[l])
      && (forall t :: t in old(db.tasks) && !TaskOnBoard(old(db.lists), old(db.tasks)[t], boardId) ==>
            t in db.tasks && db.tasks[t] == old(db.tasks)[t])
  {
    if boardId !in db.boards {
      MissingBoardHasNoOwner(db.State(), boardId, caller);
    }
    if !IsBoardOwner(db.members, boardId, caller) {
      return Forbid;
    }
    var deleted := BoardRepository.DeleteBoard(db, boardId, storage);
    if deleted.Failure? {
      return ServerError;
    }
    r := NoContent;
  }
}
