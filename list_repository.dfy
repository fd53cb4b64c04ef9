/** ListRepository: the SQL of Repositories/ListRepository.cs. */
module ListRepository {
  import opened Models
  import opened Store

  /** The Position values of a board's lists. */
  function Positions(lists: map<Uuid, List>, boardId: Uuid): set<int> {
    set k | k in lists && lists[k].boardId == boardId :: lists[k].position
  }

  /** Every non-empty finite set of integers has a largest element. */
  lemma {:induction false} MaxExists(s: set<int>)
    requires s != {}
    ensures exists m :: m in s && forall x :: x in s ==> x <= m
  {
    assert exists y :: y in s by {
      if forall y :: y !in s {
        assert false;
      }
    }
    var y :| y in s;
    var rest := s - {y};
    if rest != {} {
      MaxExists(rest);
      var m :| m in rest && forall x :: x in rest ==> x <= m;
      if y <= m {
        assert forall x :: x in s ==> x <= m by { assert forall x :: x in s ==> x == y || x in rest; }
      } else {
        assert forall x :: x in s ==> x <= y by { assert forall x :: x in s ==> x == y || x in rest; }
      }
    } else {
      assert forall x :: x in s ==> x == y by { assert forall x :: x in s ==> x == y || x in rest; }
    }
  }

  /** MAX over a non-empty set of values. */
  function Max(s: set<int>): (m: int)
    requires s != {}
    ensures m in s
    ensures forall x :: x in s ==> x <= m
  {
    MaxExists(s);
    var m :| m in s && forall x :: x in s ==> x <= m;
    m
  }

  /** SELECT ISNULL(MAX(Position), 0) + 1 FROM Lists WHERE BoardId = @BoardId. */
  function NextPosition(lists: map<Uuid, List>, boardId: Uuid): (p: int)
    // a board without lists starts at 1
    ensures Positions(lists, boardId) == {} ==> p == 1
    // otherwise it is one past the largest position on that board
    ensures Positions(lists, boardId) != {} ==> p - 1 in Positions(lists, boardId)
    ensures forall k :: k in lists && lists[k].boardId == boardId ==> lists[k].position < p
  {
    var ps := Positions(lists, boardId);
    assert forall k :: k in lists && lists[k].boardId == boardId ==> lists[k].position in ps;
    (if ps == {} then 0 else Max(ps)) + 1
  }

  /** The lists of one board, keyed as in the table. */
  function ListsOf(lists: map<Uuid, List>, boardId: Uuid): map<Uuid, List> {
    map k | k in lists && lists[k].boardId == boardId :: lists[k]
  }

  /** Lists on other boards do not take part in the next position. */
  lemma NextPositionOnlyReadsItsBoard(lists: map<Uuid, List>, boardId: Uuid)
    ensures NextPosition(lists, boardId) == NextPosition(ListsOf(lists, boardId), boardId)
  {
    var sub := ListsOf(lists, boardId);
    forall x | x in Positions(lists, boardId) ensures x in Positions(sub, boardId) {
      var k :| k in lists && lists[k].boardId == boardId && lists[k].position == x;
      assert k in sub;
    }
    assert Positions(lists, boardId) == Positions(sub, boardId);
  }

  /** CreateListAsync: inserts a list at position MAX(Position)+1 of its board.
      `newId` is the key the database generates. The addition overflows the
      INT column when the board's largest position is INT_MAX. */
  method CreateList(db: Database, list: List, newId: Uuid, now: Timestamp) returns (r: Result<Uuid>)
    requires db.Valid()
    modifies db
    ensures db.Valid()
    ensures r.Failure? ==> db.State() == old(db.State())
    ensures r == Failure(ArithmeticOverflow) <==> INT_MAX in Positions(old(db.lists), list.boardId)
    ensures r == Failure(DuplicateKey) <==> INT_MAX !in Positions(old(db.lists), list.boardId) && newId in old(db.lists)
    ensures r.Success? <==> INT_MAX !in Positions(old(db.lists), list.boardId) && newId !in old(db.lists)
    ensures r.Success? ==>
      && r.value == newId
      && db.lists == old(db.lists)[newId := List(newId, list.boardId, list.title, NextPosition(old(db.lists), list.boardId), now, now)]
      && db.boards == old(db.boards) && db.members == old(db.members) && db.tasks == old(db.tasks)
    // the new list comes after every list already on its board
    ensures r.Success? ==> forall k :: k in old(db.lists) && old(db.lists)[k].boardId == list.boardId ==>
      old(db.lists)[k].position < db.lists[newId].position
    ensures r.Success? && Positions(old(db.lists), list.boardId) == {} ==> db.lists[newId].position == 1
    // no existing list moves
    ensures r.Success? ==> forall k :: k in old(db.lists) ==> k in db.lists && db.lists[k] == old(db.lists)[k]
  {
    var next := NextPosition(db.lists, list.boardId);
    if next > INT_MAX {
      return Failure(ArithmeticOverflow);
    }
    if newId in db.lists {
      return Failure(DuplicateKey);
    }
    assert INT_MAX !in Positions(db.lists, list.boardId);
    db.lists := db.lists[newId := List(newId, list.boardId, list.title, next, now, now)];
    r := Success(newId);
  }

  /** GetListAsync: the row whose ListId is `listId`, or none. */
  function GetList(d: Db, listId: Uuid): (r: Option<List>)
    ensures r.None? <==> listId !in d.lists
    ensures d.Valid() ==> forall l :: r == Some(l) <==> l in d.lists.Values && l.listId == listId
  {
    if listId in d.lists then Some(d.lists[listId]) else None
  }

  /** UpdateListTitleAsync: sets Title and UpdatedAt of the matching list. */
  method UpdateListTitle(db: Database, listId: Uuid, newTitle: string, now: Timestamp)
    requires db.Valid()
    modifies db
    ensures db.Valid()
    ensures db.lists ==
      if listId in old(db.lists)
      then old(db.lists)[listId := old(db.lists)[listId].(title := newTitle, updatedAt := now)]
      else old(db.lists)
    ensures db.boards == old(db.boards) && db.members == old(db.members) && db.tasks == old(db.tasks)
    // no list changes board or position
    ensures db.lists.Keys == old(db.lists).Keys
    ensures forall k :: k in db.lists ==>
      db.lists[k].boardId == old(db.lists)[k].boardId && db.lists[k].position == old(db.lists)[k].position
  {
    if listId in db.lists {
      db.lists := db.lists[listId := db.lists[listId].(title := newTitle, updatedAt := now)];
    }
  }

  /** DeleteListAsync: deletes the row with that ListId. Nothing closes the gap
      its position leaves, and the list's tasks are not touched. */
  method DeleteList(db: Database, listId: Uuid)
    requires db.Valid()
    modifies db
    ensures db.Valid()
    ensures db.lists == old(db.lists) - {listId}
    ensures db.boards == old(db.boards) && db.members == old(db.members) && db.tasks == old(db.tasks)
    ensures forall k :: k in old(db.lists) && k != listId ==> k in db.lists && db.lists[k] == old(db.lists)[k]
  {
    db.lists := db.lists - {listId};
  }
}
