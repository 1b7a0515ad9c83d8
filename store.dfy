/**
 * The rows of one table as the handlers see them through the ORM: a map from
 * the primary key to the row, and the next key the database hands out.
 * `add()` inserts under a fresh key; `update()` overwrites one row.
 */
module Store {
  class Table<R> {
    var rows: map<int, R>
    var nextId: int

    /** Keys are handed out from 1 upwards and never reused. */
    ghost predicate Valid()
      reads this
    {
      nextId >= 1 && forall id :: id in rows ==> 1 <= id < nextId
    }

    constructor()
      ensures Valid() && rows == map[] && nextId == 1
    {
      rows := map[];
      nextId := 1;
    }

    /** `record.add()`: the row is inserted under a key no row had. */
    method Add(r: R) returns (id: int)
      requires Valid()
      modifies this
      ensures Valid()
      ensures id == old(nextId) && id !in old(rows) && id >= 1
      ensures rows == old(rows)[id := r] && nextId == old(nextId) + 1
    {
      id := nextId;
      rows := rows[id := r];
      nextId := nextId + 1;
    }

    /** `record.update()` after the handler changed the row in place. */
    method Update(id: int, r: R)
      requires Valid() && id in rows
      modifies this
      ensures Valid()
      ensures rows == old(rows)[id := r] && nextId == old(nextId)
    {
      rows := rows[id := r];
    }
  }
}
