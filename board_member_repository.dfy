/** BoardMemberRepository: the SQL of Repositories/BoardMemberRepository.cs. */
module BoardMemberRepository {
  import opened Roles
  import opened Models
  import opened Store

  /** UPDATE BoardMembers SET Role = @Role WHERE BoardId = @BoardId AND UserId = @UserId. */
  function SetRole(members: seq<BoardMember>, boardId: Uuid, userId: Uuid, role: Role): (r: seq<BoardMember>)
    ensures |r| == |members|
    ensures forall i :: 0 <= i < |r| ==>
      r[i] == if members[i].boardId == boardId && members[i].userId == userId then members[i].(role := role) else members[i]
  {
    if members == [] then []
    else
      var m := members[0];
      [if m.boardId == boardId && m.userId == userId then m.(role := role) else m]
        + SetRole(members[1..], boardId, userId, role)
  }

  /** The rows DELETE FROM BoardMembers WHERE BoardId = @BoardId AND UserId = @UserId keeps. */
  function WithoutMember(members: seq<BoardMember>, boardId: Uuid, userId: Uuid): (r: seq<BoardMember>)
    ensures forall m :: m in r <==> m in members && !(m.boardId == boardId && m.userId == userId)
  {
    Where(members, (m: BoardMember) => !(m.boardId == boardId && m.userId == userId))
  }

  /** IsBoardMemberAsync: some row pairs the user with the board. */
  function IsBoardMember(members: seq<BoardMember>, boardId: Uuid, userId: Uuid): (r: bool)
    ensures r <==> HasRow(members, boardId, userId)
  {
    |Where(members, (m: BoardMember) => m.boardId == boardId && m.userId == userId)| > 0
  }

  /** IsBoardAdminAsync: some row gives the user the role 'Admin' on the board. */
  function IsBoardAdmin(members: seq<BoardMember>, boardId: Uuid, userId: Uuid): (r: bool)
    ensures r <==> HasRole(members, boardId, userId, Admin)
    ensures r ==> IsBoardMember(members, boardId, userId)
  {
    |Where(members, (m: BoardMember) => m.boardId == boardId && m.userId == userId && m.role == Admin)| > 0
  }

  /** UpdateBoardMemberRoleAsync: stores any string as the new role. */
  method UpdateBoardMemberRole(db: Database, boardId: Uuid, userId: Uuid, newRole: string)
    requires db.Valid()
    modifies db
    ensures db.Valid()
    ensures db.members == SetRole(old(db.members), boardId, userId, Parse(newRole))
    ensures db.boards == old(db.boards) && db.lists == old(db.lists) && db.tasks == old(db.tasks)
  {
    db.members := SetRole(db.members, boardId, userId, Parse(newRole));
    forall m | m in db.members ensures m.boardId in db.boards && Canonical(m.role) {
      var i :| 0 <= i < |db.members| && db.members[i] == m;
      assert old(db.members)[i] in old(db.members);
    }
  }

  /** RemoveBoardMemberAsync: deletes the user's rows on the board. No check
      keeps the board's last owner. */
  method RemoveBoardMember(db: Database, boardId: Uuid, userId: Uuid)
    requires db.Valid()
    modifies db
    ensures db.Valid()
    ensures db.members == WithoutMember(old(db.members), boardId, userId)
    ensures db.boards == old(db.boards) && db.lists == old(db.lists) && db.tasks == old(db.tasks)
    ensures !IsBoardMember(db.members, boardId, userId)
  {
    db.members := WithoutMember(db.members, boardId, userId);
  }

  /** Only the rows of the pair change: the same pairs stay members. */
  lemma SetRoleKeepsMemberships(members: seq<BoardMember>, boardId: Uuid, userId: Uuid, role: Role, b: Uuid, u: Uuid)
    ensures IsBoardMember(SetRole(members, boardId, userId, role), b, u) == IsBoardMember(members, b, u)
  {
    var r := SetRole(members, boardId, userId, role);
    if IsBoardMember(members, b, u) {
      var i :| 0 <= i < |members| && members[i].boardId == b && members[i].userId == u;
      assert r[i].boardId == b && r[i].userId == u;
    }
    if IsBoardMember(r, b, u) {
      var i :| 0 <= i < |r| && r[i].boardId == b && r[i].userId == u;
      assert members[i].boardId == b && members[i].userId == u;
    }
  }

  /** Updating the role of a pair that has no row changes nothing. */
  lemma SetRoleOfNonMember(members: seq<BoardMember>, boardId: Uuid, userId: Uuid, role: Role)
    requires !IsBoardMember(members, boardId, userId)
    ensures SetRole(members, boardId, userId, role) == members
  {
    var r := SetRole(members, boardId, userId, role);
    forall i | 0 <= i < |r| ensures r[i] == members[i] {
      assert !(members[i].boardId == boardId && members[i].userId == userId);
    }
  }

  /** Applying the same role update twice is applying it once. */
  lemma SetRoleIdempotent(members: seq<BoardMember>, boardId: Uuid, userId: Uuid, role: Role)
    ensures SetRole(SetRole(members, boardId, userId, role), boardId, userId, role) == SetRole(members, boardId, userId, role)
  {
    var once := SetRole(members, boardId, userId, role);
    var twice := SetRole(once, boardId, userId, role);
    forall i | 0 <= i < |twice| ensures twice[i] == once[i] {
    }
  }

  /** After an existing member is given 'Admin', IsBoardAdminAsync holds for them. */
  lemma PromotedMemberIsAdmin(members: seq<BoardMember>, boardId: Uuid, userId: Uuid)
    requires IsBoardMember(members, boardId, userId)
    ensures IsBoardAdmin(SetRole(members, boardId, userId, Admin), boardId, userId)
  {
    var i :| 0 <= i < |members| && members[i].boardId == boardId && members[i].userId == userId;
    var r := SetRole(members, boardId, userId, Admin);
    assert r[i].boardId == boardId && r[i].userId == userId && r[i].role == Admin;
  }
}
