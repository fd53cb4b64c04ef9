/** BoardMemberController (Controllers/BoardMemberController.cs): the member
    handlers and the CanManageMembers guard. `caller` is the user id from the
    bearer token. */
module BoardMemberController {
  import opened Roles
  import opened Models
  import opened Store
  import opened Http
  import opened BoardRepository
  import opened BoardMemberRepository
  import opened BoardMemberDtos

  /** GetBoardMembers: Forbid unless the caller owns the board or has a
      membership row on it; Ok means the board's members are fetched. */
  function GetBoardMembers(d: Db, caller: Uuid, boardId: Uuid): (r: ActionResult<()>)
    ensures r.Forbid? || r.Ok?
    ensures r.Ok? <==> HasRow(d.members, boardId, caller)
    ensures HasRole(d.members, boardId, caller, Owner) ==> r.Ok?
  {
    if !IsBoardOwner(d.members, boardId, caller) && !IsBoardMember(d.members, boardId, caller) then Forbid
    else Ok(())
  }

  /** CanManageMembers: the caller owns the board or is an Admin of it. */
  function CanManageMembers(d: Db, boardId: Uuid, userId: Uuid): (r: bool)
    ensures r <==> HasRole(d.members, boardId, userId, Owner) || HasRole(d.members, boardId, userId, Admin)
    ensures r ==> HasRow(d.members, boardId, userId)
  {
    IsBoardOwner(d.members, boardId, userId) || IsBoardAdmin(d.members, boardId, userId)
  }

  /** Nobody manages the members of a board that does not exist. */
  lemma NoOneManagesMissingBoard(d: Db, boardId: Uuid, userId: Uuid)
    requires d.Valid()
    requires boardId !in d.boards
    ensures !CanManageMembers(d, boardId, userId)
  {
    forall i | 0 <= i < |d.members| ensures d.members[i].boardId != boardId {
      assert d.members[i] in d.members;
    }
  }

  /** The row sp_AddBoardMember is asked to insert. */
  datatype AddMemberRequest = AddMemberRequest(boardId: Uuid, userId: Uuid, role: Role)

  /** AddBoardMember: BadRequest when the body fails validation, which the
      framework checks before the action runs; then Forbid unless the caller
      can manage members; otherwise the row to add, its board from the route
      and its user and role from the body. */
  function AddBoardMember(d: Db, caller: Uuid, boardId: Uuid, dto: AddBoardMemberDto): (r: ActionResult<AddMemberRequest>)
    ensures r.BadRequest? || r.Forbid? || r.Ok?
    ensures r.BadRequest? <==> !(dto.role == "Admin" || dto.role == "Member" || dto.role == "Viewer")
    ensures r.Forbid? <==> IsValidRole(dto.role) && !HasRole(d.members, boardId, caller, Owner) && !HasRole(d.members, boardId, caller, Admin)
    ensures r.Ok? ==> r.value.boardId == boardId && r.value.userId == dto.userId && Name(r.value.role) == dto.role
    // no request makes anyone an owner
    ensures r.Ok? ==> r.value.role in {Admin, Member, Viewer}
  {
    if !IsValidRole(dto.role) then BadRequest
    else if !CanManageMembers(d, boardId, caller) then Forbid
    else
      ValidRoleIsNotOwner(dto.role);
      Ok(AddMemberRequest(boardId, dto.userId, Parse(dto.role)))
  }

  /** UpdateMemberRole: Forbid, changing nothing, unless the caller owns the
      board; otherwise the new role is stored for the member, whoever the
      member is and whatever the string is. */
  method UpdateMemberRole(db: Database, caller: Uuid, boardId: Uuid, memberId: Uuid, newRole: string) returns (r: ActionResult<()>)
    requires db.Valid()
    modifies db
    ensures db.Valid()
    ensures r.Forbid? || r.Ok?
    ensures r.Forbid? <==> !HasRole(old(db.members), boardId, caller, Owner)
    ensures r.Forbid? ==> db.State() == old(db.State())
    ensures r.Ok? ==>
      && db.members == SetRole(old(db.members), boardId, memberId, Parse(newRole))
      && db.boards == old(db.boards) && db.lists == old(db.lists) && db.tasks == old(db.tasks)
  {
    if !IsBoardOwner(db.members, boardId, caller) {
      return Forbid;
    }
    UpdateBoardMemberRole(db, boardId, memberId, newRole);
    r := Ok(());
  }

  /** RemoveBoardMember: Forbid, changing nothing, unless the caller owns the
      board; otherwise the member's rows go, the caller's own included. */
  method RemoveBoardMember(db: Database, caller: Uuid, boardId: Uuid, memberId: Uuid) returns (r: ActionResult<()>)
    requires db.Valid()
    modifies db
    ensures db.Valid()
    ensures r.Forbid? || r.NoContent?
    ensures r.Forbid? <==> !HasRole(old(db.members), boardId, caller, Owner)
    ensures r.Forbid? ==> db.State() == old(db.State())
    ensures r.NoContent? ==>
      && db.members == WithoutMember(old(db.members), boardId, memberId)
      && db.boards == old(db.boards) && db.lists == old(db.lists) && db.tasks == old(db.tasks)
      && !IsBoardMember(db.members, boardId, memberId)
  {
    if !IsBoardOwner(db.members, boardId, caller) {
      return Forbid;
    }
    BoardMemberRepository.RemoveBoardMember(db, boardId, memberId);
    r := NoContent;
  }

  /** Nothing keeps a board's last owner: when the sole owner removes
      themselves, the board is left with no owner, and from then on every
      owner-only request on it is forbidden. */
  lemma SoleOwnerCanLeaveBoardOwnerless(members: seq<BoardMember>, boardId: Uuid, owner: Uuid)
    requires HasRole(members, boardId, owner, Owner)
    requires forall i :: 0 <= i < |members| && members[i].boardId == boardId && members[i].role == Owner ==> members[i].userId == owner
    ensures forall u :: !HasRole(WithoutMember(members, boardId, owner), boardId, u, Owner)
  {
    var rest := WithoutMember(members, boardId, owner);
    forall j | 0 <= j < |rest| ensures !(rest[j].boardId == boardId && rest[j].role == Owner) {
      assert rest[j] in rest;
      var i :| 0 <= i < |members| && members[i] == rest[j];
    }
  }
}
