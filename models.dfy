/** The rows of the four tables the core works on, after Models/Board.cs,
    Models/BoardMember.cs, Models/List.cs and Models/TaskItem.cs. */
module Models {
  import opened Roles

  /** A Guid. */
  type Uuid = nat

  /** A DateTime; timestamps are opaque values that only get copied around. */
  type Timestamp = int

  datatype Option<T> = None | Some(value: T)

  /** SQL Server INT, the type of the Position columns. */
  const INT_MIN: int := -0x8000_0000
  const INT_MAX: int := 0x7fff_ffff

  predicate IsInt(x: int) {
    INT_MIN <= x <= INT_MAX
  }

  /** A row of Boards. */
  datatype Board = Board(
    boardId: Uuid,
    title: string,
    description: Option<string>,
    createdBy: Uuid,
    createdAt: Timestamp,
    updatedAt: Timestamp)

  /** A row of BoardMembers. */
  datatype BoardMember = BoardMember(
    boardId: Uuid,
    userId: Uuid,
    role: Role,
    joinedAt: Timestamp)

  /** A Board object whose Members list the repository has filled in. */
  datatype LoadedBoard = LoadedBoard(board: Board, members: seq<BoardMember>)

  /** A row of Lists. */
  datatype List = List(
    listId: Uuid,
    boardId: Uuid,
    title: string,
    position: int,
    createdAt: Timestamp,
    updatedAt: Timestamp)

  /** A row of Tasks. */
  datatype TaskItem = TaskItem(
    taskId: Uuid,
    listId: Uuid,
    title: string,
    description: string,
    dueDate: Option<Timestamp>,
    priority: int,
    position: int,
    createdBy: Uuid,
    createdAt: Timestamp,
    updatedAt: Timestamp)
}
