/** The user table behind `User.objects`: rows in primary-key order and the
    next value of the auto-increment key. Inserting and saving a row are the
    two writes the service makes; the database refuses a row that breaks its
    uniqueness or width constraints, so those are the preconditions here. */
module Store {
  import opened Models

  class UserTable {
    var rows: seq<UserRecord>
    var nextId: nat

    /** The constraints the database maintains. */
    ghost predicate Consistent()
      reads this
    {
      TableConsistent(rows, nextId)
    }

    /** The service's table invariant, which holds between requests. */
    ghost predicate Valid()
      reads this
    {
      TableValid(rows, nextId)
    }

    /** An empty table; primary keys start at 1. */
    constructor ()
      ensures Valid()
      ensures rows == [] && nextId == 1
    {
      rows := [];
      nextId := 1;
    }

    /** INSERT of a new row, which takes the next primary key. */
    method Insert(u: UserRecord) returns (index: nat)
      requires Consistent()
      requires Insertable(rows, nextId, u)
      modifies this
      ensures Consistent()
      ensures rows == old(rows) + [u]
      ensures nextId == old(nextId) + 1
      ensures index == |old(rows)| && rows[index] == u
    {
      index := |rows|;
      rows := rows + [u];
      nextId := nextId + 1;
    }

    /** UPDATE of the row at `index` with every column of `u`; the primary
        key stays, and the new values must keep e-mail and username unique
        and fit the columns. */
    method Save(index: nat, u: UserRecord)
      requires Consistent()
      requires index < |rows| && u.id == rows[index].id
      requires FitsColumns(u)
      requires forall j | 0 <= j < |rows| && j != index ::
                 rows[j].email != u.email && rows[j].username != u.username
      modifies this
      ensures Consistent()
      ensures rows == old(rows)[index := u]
      ensures nextId == old(nextId)
    {
      rows := rows[index := u];
    }
  }
}
