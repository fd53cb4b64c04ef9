/** The database the repositories share: the Boards, BoardMembers, Lists and
    Tasks tables, the relational filter their WHERE clauses use, and the
    failures a statement can raise. */
module Store {
  import opened Roles
  import opened Models

  /** A snapshot of the four tables. Boards, Lists and Tasks are keyed by their
      primary key; BoardMembers is a bag of rows in storage order. */
  datatype Db = Db(
    boards: map<Uuid, Board>,
    members: seq<BoardMember>,
    lists: map<Uuid, List>,
    tasks: map<Uuid, TaskItem>)
  {
    /** Consistency of a snapshot: every row sits under its own key, every
        membership refers to an existing board and holds a canonical role,
        and every position fits an INT column. */
    ghost predicate Valid() {
      && (forall k :: k in boards ==> boards[k].boardId == k)
      && (forall k :: k in lists ==> lists[k].listId == k && IsInt(lists[k].position))
      && (forall k :: k in tasks ==> tasks[k].taskId == k)
      && (forall m :: m in members ==> m.boardId in boards && Canonical(m.role))
    }
  }

  /** Why a statement or a transaction did not go through. */
  datatype DbError = StorageFailure | DuplicateKey | ArithmeticOverflow

  datatype Result<T> = Success(value: T) | Failure(error: DbError)

  /** The storage engine, as far as a transaction can tell: healthy, or failing
      on the k-th statement it is sent (the commit counts as a statement). */
  datatype Storage = Healthy | FailsAt(statement: nat) {
    predicate Fails(k: nat) {
      FailsAt? && statement == k
    }

    predicate FailsWithin(n: nat) {
      FailsAt? && 1 <= statement <= n
    }
  }

  /** The rows of `rows` that satisfy `p`, in their order: SELECT ... WHERE p,
      and also what DELETE ... WHERE !p keeps. */
  function Where<T(!new)>(rows: seq<T>, p: T -> bool): (r: seq<T>)
    ensures |r| <= |rows|
    ensures forall x :: x in r <==> x in rows && p(x)
    ensures |r| > 0 <==> exists i :: 0 <= i < |rows| && p(rows[i])
  {
    if rows == [] then []
    else
      var rest := Where(rows[1..], p);
      assert forall i :: 0 < i < |rows| ==> rows[i] == rows[1..][i - 1];
      if p(rows[0]) then [rows[0]] + rest else rest
  }

  /** Filtering distributes over concatenation of row sequences. */
  lemma {:induction false} WhereAppend<T(!new)>(a: seq<T>, b: seq<T>, p: T -> bool)
    ensures Where(a + b, p) == Where(a, p) + Where(b, p)
  {
    if a == [] {
      assert a + b == b;
    } else {
      assert (a + b)[0] == a[0];
      assert (a + b)[1..] == a[1..] + b;
      WhereAppend(a[1..], b, p);
    }
  }

  /** Some BoardMembers row pairs `userId` with `boardId`. */
  ghost predicate HasRow(members: seq<BoardMember>, boardId: Uuid, userId: Uuid) {
    exists i :: 0 <= i < |members| && members[i].boardId == boardId && members[i].userId == userId
  }

  /** Some BoardMembers row gives `userId` exactly `role` on `boardId`. */
  ghost predicate HasRole(members: seq<BoardMember>, boardId: Uuid, userId: Uuid, role: Role) {
    exists i :: 0 <= i < |members| && members[i].boardId == boardId && members[i].userId == userId && members[i].role == role
  }

  /** The database connection's tables, updated in place by the repositories. */
  class Database {
    var boards: map<Uuid, Board>
    var members: seq<BoardMember>
    var lists: map<Uuid, List>
    var tasks: map<Uuid, TaskItem>

    function State(): Db
      reads this
    {
      Db(boards, members, lists, tasks)
    }

    ghost predicate Valid()
      reads this
    {
      State().Valid()
    }

    /** Opens the database on existing, consistent contents. */
    constructor (initial: Db)
      requires initial.Valid()
      ensures Valid() && State() == initial
    {
      boards := initial.boards;
      members := initial.members;
      lists := initial.lists;
      tasks := initial.tasks;
    }

    /** Rolls a transaction back to the snapshot taken when it began. */
    method Rollback(snapshot: Db)
      modifies this
      ensures State() == snapshot
    {
      boards := snapshot.boards;
      members := snapshot.members;
      lists := snapshot.lists;
      tasks := snapshot.tasks;
    }
  }
}
