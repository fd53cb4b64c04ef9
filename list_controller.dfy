/** ListController (Controllers/ListController.cs): the list handlers and the
    HasListAccess guard. `caller` is the user id from the bearer token. */
module ListController {
  import opened Roles
  import opened Models
  import opened Store
  import opened Http
  import opened BoardRepository
  import ListRepository

  /** IsBoardMemberWithRoleAsync, which the board repository calls but does not
      define: read here as "some row gives the user exactly this role", with
      the role string stored as the rows store it. No role ranks above another. */
  function IsBoardMemberWithRole(members: seq<BoardMember>, boardId: Uuid, userId: Uuid, role: string): (r: bool)
    ensures r <==> HasRole(members, boardId, userId, Parse(role))
  {
    |Where(members, (m: BoardMember) => m.boardId == boardId && m.userId == userId && m.role == Parse(role))| > 0
  }

  /** HasListAccess: false for an unknown list; otherwise true iff the caller
      owns the list's board or holds `requiredRole` on it. */
  function HasListAccess(d: Db, listId: Uuid, userId: Uuid, requiredRole: string): (r: bool)
    ensures listId !in d.lists ==> !r
    ensures listId in d.lists ==>
      (r <==> (HasRole(d.members, d.lists[listId].boardId, userId, Owner)
               || HasRole(d.members, d.lists[listId].boardId, userId, Parse(requiredRole))))
    // an owner passes whatever the required role is
    ensures listId in d.lists && HasRole(d.members, d.lists[listId].boardId, userId, Owner) ==> r
  {
    match ListRepository.GetList(d, listId)
    case None => false
    case Some(list) =>
      IsBoardOwner(d.members, list.boardId, userId)
      || IsBoardMemberWithRole(d.members, list.boardId, userId, requiredRole)
  }

  /** With roles compared exactly, an Admin who is neither owner nor Member may
      retitle and delete a list but may not move it. */
  lemma AdminCannotMoveList(d: Db, listId: Uuid, userId: Uuid)
    requires listId in d.lists
    requires HasRole(d.members, d.lists[listId].boardId, userId, Admin)
    requires !HasRole(d.members, d.lists[listId].boardId, userId, Owner)
    requires !HasRole(d.members, d.lists[listId].boardId, userId, Member)
    ensures HasListAccess(d, listId, userId, "Admin")
    ensures !HasListAccess(d, listId, userId, "Member")
  {
    assert Parse("Admin") == Admin;
    assert Parse("Member") == Member;
  }

  /** CreateList: Forbid, creating nothing, unless the caller owns the list's
      board or is an Admin of it; otherwise the repository insert. */
  method CreateList(db: Database, caller: Uuid, list: List, newId: Uuid, now: Timestamp) returns (r: ActionResult<Uuid>)
    requires db.Valid()
    modifies db
    ensures db.Valid()
    ensures r.Forbid? || r.Ok? || r.ServerError?
    ensures r.Forbid? <==> (!HasRole(old(db.members), list.boardId, caller, Owner)
                         && !HasRole(old(db.members), list.boardId, caller, Admin))
    ensures r.Ok? <==> (!r.Forbid? && INT_MAX !in ListRepository.Positions(old(db.lists), list.boardId)
                               && newId !in old(db.lists))
    ensures !r.Ok? ==> db.State() == old(db.State())
    ensures r.Ok? ==>
      && r.value == newId
      && db.lists == old(db.lists)[newId := List(newId, list.boardId, list.title,
                                                 ListRepository.NextPosition(old(db.lists), list.boardId), now, now)]
      && db.boards == old(db.boards) && db.members == old(db.members) && db.tasks == old(db.tasks)
    // the new list comes after every list already on its board
    ensures r.Ok? ==> forall k :: k in old(db.lists) && old(db.lists)[k].boardId == list.boardId ==>
      old(db.lists)[k].position < db.lists[newId].position
  {
    if !IsBoardOwner(db.members, list.boardId, caller) && !IsBoardMemberWithRole(db.members, list.boardId, caller, "Admin") {
      assert Parse("Admin") == Admin;
      return Forbid;
    }
    assert Parse("Admin") == Admin;
    var created := ListRepository.CreateList(db, list, newId, now);
    if created.Failure? {
      return ServerError;
    }
    r := Ok(created.value);
  }

  /** GetBoardLists: NotFound for a missing board, Forbid for a caller without a
      membership row; Ok means the board's lists are fetched. */
  function GetBoardLists(d: Db, caller: Uuid, boardId: Uuid): (r: ActionResult<()>)
    ensures r.NotFound? <==> boardId !in d.boards
    ensures r.Forbid? <==> boardId in d.boards && !HasRow(d.members, boardId, caller)
    ensures r.Ok? <==> boardId in d.boards && HasRow(d.members, boardId, caller)
  {
    match GetBoardById(d, boardId)
    case None => NotFound
    case Some(board) =>
      if exists m :: m in board.members && m.userId == caller then Ok(())
      else
        assert !HasRow(d.members, boardId, caller) by {
          forall i | 0 <= i < |d.members| && d.members[i].boardId == boardId
            ensures d.members[i].userId != caller
          {
            assert d.members[i] in board.members;
          }
        }
        Forbid
  }

  /** The stored-procedure call UpdateListPosition makes once access is granted. */
  datatype PositionUpdate = PositionUpdate(listId: Uuid, position: int)

  /** UpdateListPosition: Forbid unless the caller has access with role
      "Member"; otherwise the position update for the route's list. */
  function UpdateListPosition(d: Db, caller: Uuid, listId: Uuid, position: int): (r: ActionResult<PositionUpdate>)
    ensures r.Forbid? || r.Ok?
    ensures r.Ok? <==> (listId in d.lists &&
      (HasRole(d.members, d.lists[listId].boardId, caller, Owner) || HasRole(d.members, d.lists[listId].boardId, caller, Member)))
    ensures r.Ok? ==> r.value.listId == listId && r.value.position == position
  {
    assert Parse("Member") == Member;
    if !HasListAccess(d, listId, caller, "Member") then Forbid else Ok(PositionUpdate(listId, position))
  }

  /** UpdateListTitle: Forbid, changing nothing, unless the caller has access
      with role "Admin"; otherwise the title update. */
  method UpdateListTitle(db: Database, caller: Uuid, listId: Uuid, newTitle: string, now: Timestamp) returns (r: ActionResult<()>)
    requires db.Valid()
    modifies db
    ensures db.Valid()
    ensures r.Forbid? || r.Ok?
    ensures r.Ok? <==> (listId in old(db.lists) &&
      (HasRole(old(db.members), old(db.lists)[listId].boardId, caller, Owner) || HasRole(old(db.members), old(db.lists)[listId].boardId, caller, Admin)))
    ensures r.Forbid? ==> db.State() == old(db.State())
    ensures r.Ok? ==>
      && db.lists == old(db.lists)[listId := old(db.lists)[listId].(title := newTitle, updatedAt := now)]
      && db.boards == old(db.boards) && db.members == old(db.members) && db.tasks == old(db.tasks)
  {
    assert Parse("Admin") == Admin;
    if !HasListAccess(db.State(), listId, caller, "Admin") {
      return Forbid;
    }
    ListRepository.UpdateListTitle(db, listId, newTitle, now);
    r := Ok(());
  }

  /** DeleteList: Forbid, deleting nothing, unless the caller has access with
      role "Admin"; otherwise the list row is deleted. */
  method DeleteList(db: Database, caller: Uuid, listId: Uuid) returns (r: ActionResult<()>)
    requires db.Valid()
    modifies db
    ensures db.Valid()
    ensures r.Forbid? || r.NoContent?
    ensures r.NoContent? <==> (listId in old(db.lists) &&
      (HasRole(old(db.members), old(db.lists)[listId].boardId, caller, Owner) || HasRole(old(db.members), old(db.lists)[listId].boardId, caller, Admin)))
    ensures r.Forbid? ==> db.State() == old(db.State())
    ensures r.NoContent? ==>
      && db.lists == old(db.lists) - {listId}
      && db.boards == old(db.boards) && db.members == old(db.members) && db.tasks == old(db.tasks)
  {
    assert Parse("Admin") == Admin;
    if !HasListAccess(db.State(), listId, caller, "Admin") {
      return Forbid;
    }
    ListRepository.DeleteList(db, listId);
    r := NoContent;
  }
}
